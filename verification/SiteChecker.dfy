// The site checker's page parser: a machine over HTML events, and the document tree it stands for.
module SiteChecker {
  import opened Text

  // The tags the checker tells apart.
  datatype Tag = Para | Li | Td | Th | Dd | H1 | H2 | H3 | H4 | Nav | Header | Footer | Anchor | Other(name: string)

  // The attributes of a start tag the checker looks at; a missing class reads as the empty string.
  datatype Attrs = Attrs(id: Option<string>, href: Option<string>, cls: string)

  datatype Event = Start(tag: Tag, attrs: Attrs) | End(tag: Tag) | Data(text: string)

  // An open block: its text so far and the links that are directly in it.
  datatype Block = Block(texts: seq<string>, links: seq<string>)

  datatype BodyLink = BodyLink(href: string, text: string)

  datatype State = State(ids: set<string>, hrefs: seq<string>, chrome: int, block: seq<Block>, bodyLinks: seq<BodyLink>)

  predicate IsBlock(tag: Tag) {
    tag.Para? || tag.Li? || tag.Td? || tag.Th? || tag.Dd? || tag.H1? || tag.H2? || tag.H3? || tag.H4?
  }

  predicate IsChrome(tag: Tag) { tag.Nav? || tag.Header? || tag.Footer? }

  // '"pq-lang" in class', as a substring.
  predicate IsSwitch(cls: string) { exists i :: 0 <= i <= |cls| - 7 && SwitchAt(cls, i) }

  predicate SwitchAt(cls: string, i: int) { 0 <= i <= |cls| - 7 && cls[i..i + 7] == "pq-lang" }

  function Concat(texts: seq<string>): string {
    if texts == [] then "" else Concat(texts[..|texts| - 1]) + texts[|texts| - 1]
  }

  // Append a text or a link to the innermost open block, if there is one.
  function AddText(block: seq<Block>, text: string): seq<Block> {
    if block == [] then []
    else var b := block[|block| - 1]; block[..|block| - 1] + [b.(texts := b.texts + [text])]
  }

  function AddLink(block: seq<Block>, href: string): seq<Block> {
    if block == [] then []
    else var b := block[|block| - 1]; block[..|block| - 1] + [b.(links := b.links + [href])]
  }

  function Pairs(links: seq<string>, text: string): seq<BodyLink> {
    seq(|links|, i requires 0 <= i < |links| => BodyLink(links[i], text))
  }

  // ---------- the machine ----------

  function OnStart(st: State, tag: Tag, a: Attrs): State {
    var chrome := if IsChrome(tag) then st.chrome + 1 else st.chrome;
    var block := if IsBlock(tag) && chrome == 0 then st.block + [Block([], [])] else st.block;
    var ids := if a.id.Some? then st.ids + {a.id.value} else st.ids;
    if tag.Anchor? && a.href.Some? then
      State(ids, st.hrefs + [a.href.value], chrome,
            if block != [] && chrome == 0 && !IsSwitch(a.cls) then AddLink(block, a.href.value)
              else block, st.bodyLinks)
    else State(ids, st.hrefs, chrome, block, st.bodyLinks)
  }

  function OnEnd(st: State, tag: Tag): State {
    var chrome := if IsChrome(tag) && st.chrome != 0 then st.chrome - 1 else st.chrome;
    if IsBlock(tag) && st.block != [] && chrome == 0 then
      var last := st.block[|st.block| - 1];
      var text := Concat(last.texts);
      State(st.ids, st.hrefs, chrome, AddText(st.block[..|st.block| - 1], text), st.bodyLinks + Pairs(last.links, text))
    else st.(chrome := chrome)
  }

  function Step(st: State, e: Event): State {
    match e
    case Start(tag, a) => OnStart(st, tag, a)
    case End(tag) => OnEnd(st, tag)
    case Data(text) => st.(block := AddText(st.block, text))
  }

  function Run(st: State, es: seq<Event>): State
    decreases es
  {
    if es == [] then st else Run(Step(st, es[0]), es[1..])
  }

  class P {
    var ids: set<string>
    var hrefs: seq<string>
    var chrome: int
    var block: seq<Block>
    var bodyLinks: seq<BodyLink>

    constructor ()
      ensures Now() == State({}, [], 0, [], [])
    {
      ids, hrefs, chrome, block, bodyLinks := {}, [], 0, [], [];
    }

    ghost function Now(): State reads this { State(ids, hrefs, chrome, block, bodyLinks) }

    method HandleStartTag(tag: Tag, a: Attrs)
      modifies this
      ensures Now() == OnStart(old(Now()), tag, a)
    {
      if a.id.Some? { ids := ids + {a.id.value}; }
      if IsChrome(tag) { chrome := chrome + 1; }
      if IsBlock(tag) && chrome == 0 { block := block + [Block([], [])]; }
      if tag.Anchor? && a.href.Some? {
        hrefs := hrefs + [a.href.value];
        if block != [] && chrome == 0 && !IsSwitch(a.cls) {
          var b := block[|block| - 1];
          block := block[|block| - 1 := b.(links := b.links + [a.href.value])];
        }
      }
    }

    method HandleEndTag(tag: Tag)
      modifies this
      ensures Now() == OnEnd(old(Now()), tag)
    {
      if IsChrome(tag) && chrome != 0 { chrome := chrome - 1; }
      if IsBlock(tag) && block != [] && chrome == 0 {
        var last := block[|block| - 1];
        block := block[..|block| - 1];
        var text := Concat(last.texts);
        if block != [] {
          var b := block[|block| - 1];
          block := block[|block| - 1 := b.(texts := b.texts + [text])];
        }
        Record(last.links, text);
      }
    }

    // The links of a closed block, each with the text of the block.
    method Record(links: seq<string>, text: string)
      modifies this`bodyLinks
      ensures bodyLinks == old(bodyLinks) + Pairs(links, text)
    {
      for i := 0 to |links|
        invariant bodyLinks == old(bodyLinks) + Pairs(links, text)[..i]
      {
        bodyLinks := bodyLinks + [BodyLink(links[i], text)];
      }
      assert Pairs(links, text)[..|links|] == Pairs(links, text);
    }

    method HandleData(data: string)
      modifies this
      ensures Now() == old(Now()).(block := AddText(old(block), data))
    {
      if block != [] {
        var b := block[|block| - 1];
        block := block[|block| - 1 := b.(texts := b.texts + [data])];
      }
    }

    // Feeding a page runs the machine over its events.
    method Feed(es: seq<Event>)
      modifies this
      ensures Now() == Run(old(Now()), es)
    {
      for i := 0 to |es|
        invariant Run(Now(), es[i..]) == Run(old(Now()), es)
      {
        ghost var st := Now();
        match es[i] {
          case Start(tag, a) => HandleStartTag(tag, a);
          case End(tag) => HandleEndTag(tag);
          case Data(text) => HandleData(text);
        }
        assert Now() == Step(st, es[i]);
        assert es[i..][0] == es[i] && es[i..][1..] == es[i + 1..];
      }
    }
  }

  lemma RunOne(st: State, e: Event, es: seq<Event>)
    ensures Run(st, [e] + es) == Run(Step(st, e), es)
  {
    assert ([e] + es)[1..] == es;
  }

  lemma RunOneMore(st: State, a: seq<Event>, b: seq<Event>)
    requires a != []
    ensures Run(st, a + b) == Run(Step(st, a[0]), a[1..] + b)
  {
    assert (a + b)[1..] == a[1..] + b;
  }

  lemma {:induction false} RunAppend(st: State, a: seq<Event>, b: seq<Event>)
    ensures Run(st, a + b) == Run(Run(st, a), b)
    decreases a
  {
    if a == [] {
      assert a + b == b;
    } else {
      RunAppend(Step(st, a[0]), a[1..], b);
      RunOneMore(st, a, b);
    }
  }

  // On any stream of events, nested or not, the depth never goes below zero.
  lemma {:induction false} DepthIsNeverNegative(st: State, es: seq<Event>)
    requires st.chrome >= 0
    ensures Run(st, es).chrome >= 0
    decreases es
  {
    if es == [] {
    } else {
      DepthIsNeverNegative(Step(st, es[0]), es[1..]);
    }
  }

  // ---------- documents ----------

  // A sequence of sibling nodes: text, elements that have no end tag, and elements with content.
  datatype Doc =
    | Done
    | Chars(text: string, next: Doc)
    | Void(tag: Tag, attrs: Attrs, next: Doc)
    | Elem(tag: Tag, attrs: Attrs, inner: Doc, next: Doc)

  function Events(d: Doc): seq<Event> {
    match d
    case Done => []
    case Chars(text, next) => [Data(text)] + Events(next)
    case Void(tag, a, next) => [Start(tag, a)] + Events(next)
    case Elem(tag, a, inner, next) => [Start(tag, a)] + (Events(inner) + ([End(tag)] + Events(next)))
  }

  function TextOf(d: Doc): string {
    match d
    case Done => ""
    case Chars(text, next) => text + TextOf(next)
    case Void(_, _, next) => TextOf(next)
    case Elem(_, _, inner, next) => TextOf(inner) + TextOf(next)
  }

  function IdsOf(d: Doc): set<string> {
    match d
    case Done => {}
    case Chars(_, next) => IdsOf(next)
    case Void(_, a, next) => OwnId(a) + IdsOf(next)
    case Elem(_, a, inner, next) => OwnId(a) + IdsOf(inner) + IdsOf(next)
  }

  function OwnId(a: Attrs): set<string> { if a.id.Some? then {a.id.value} else {} }

  function HrefsOf(d: Doc): seq<string> {
    match d
    case Done => []
    case Chars(_, next) => HrefsOf(next)
    case Void(tag, a, next) => OwnHref(tag, a) + HrefsOf(next)
    case Elem(tag, a, inner, next) => OwnHref(tag, a) + HrefsOf(inner) + HrefsOf(next)
  }

  function OwnHref(tag: Tag, a: Attrs): seq<string> { if tag.Anchor? && a.href.Some? then [a.href.value] else [] }

  // A link that counts: outside chrome, and not the language switch.
  function Counted(tag: Tag, a: Attrs, chrome: nat): seq<string> {
    if chrome == 0 && !IsSwitch(a.cls) then OwnHref(tag, a) else []
  }

  function Depth(tag: Tag, chrome: nat): nat { if IsChrome(tag) then chrome + 1 else chrome }

  predicate Opens(tag: Tag, chrome: nat) { IsBlock(tag) && chrome == 0 }

  // Every chrome element and every block that is opened, one outside chrome, has its end tag.
  ghost predicate Closes(d: Doc, chrome: nat) {
    match d
    case Done => true
    case Chars(_, next) => Closes(next, chrome)
    case Void(tag, _, next) => !IsChrome(tag) && !Opens(tag, chrome) && Closes(next, chrome)
    case Elem(tag, _, inner, next) => Closes(inner, Depth(tag, chrome)) && Closes(next, chrome)
  }

  // The reference: every counted link, in document order, with the whole text of the innermost block around it.
  function Expected(d: Doc, chrome: nat, around: Option<string>): seq<BodyLink> {
    match d
    case Done => []
    case Chars(_, next) => Expected(next, chrome, around)
    case Void(tag, a, next) => Here(tag, a, chrome, around) + Expected(next, chrome, around)
    case Elem(tag, a, inner, next) =>
      Here(tag, a, chrome, around)
      + Expected(inner, Depth(tag, chrome), if Opens(tag, chrome) then Some(TextOf(inner)) else around)
      + Expected(next, chrome, around)
  }

  function Here(tag: Tag, a: Attrs, chrome: nat, around: Option<string>): seq<BodyLink> {
    if around.Some? then Pairs(Counted(tag, a, chrome), around.value) else []
  }

  // ---------- what one run over a document does ----------

  // What the document leaves in the block around it, and what it records when its own blocks close.
  function Pieces(d: Doc, chrome: nat): seq<string> {
    match d
    case Done => []
    case Chars(text, next) => [text] + Pieces(next, chrome)
    case Void(_, _, next) => Pieces(next, chrome)
    case Elem(tag, _, inner, next) =>
      (if Opens(tag, chrome) then [Concat(Pieces(inner, chrome))] else Pieces(inner, Depth(tag, chrome)))
        + Pieces(next, chrome)
  }

  function OwnLinks(d: Doc, chrome: nat): seq<string> {
    match d
    case Done => []
    case Chars(_, next) => OwnLinks(next, chrome)
    case Void(tag, a, next) => Counted(tag, a, chrome) + OwnLinks(next, chrome)
    case Elem(tag, a, inner, next) =>
      Counted(tag, a, chrome) + (if Opens(tag, chrome) then [] else OwnLinks(inner, Depth(tag, chrome)))
        + OwnLinks(next, chrome)
  }

  function Recorded(d: Doc, chrome: nat): seq<BodyLink> {
    match d
    case Done => []
    case Chars(_, next) => Recorded(next, chrome)
    case Void(_, _, next) => Recorded(next, chrome)
    case Elem(tag, _, inner, next) =>
      Recorded(inner, Depth(tag, chrome))
      + (if Opens(tag, chrome) then Pairs(OwnLinks(inner, chrome), Concat(Pieces(inner, chrome))) else [])
      + Recorded(next, chrome)
  }

  function Extend(block: seq<Block>, texts: seq<string>, links: seq<string>): seq<Block> {
    if block == [] then []
    else var b := block[|block| - 1]; block[..|block| - 1] + [Block(b.texts + texts, b.links + links)]
  }

  function After(st: State, d: Doc): State
    requires st.chrome >= 0
  {
    State(st.ids + IdsOf(d), st.hrefs + HrefsOf(d), st.chrome,
          Extend(st.block, Pieces(d, st.chrome), OwnLinks(d, st.chrome)), st.bodyLinks + Recorded(d, st.chrome))
  }

  lemma ExtendTwice(block: seq<Block>, t1: seq<string>, l1: seq<string>, t2: seq<string>, l2: seq<string>)
    ensures Extend(Extend(block, t1, l1), t2, l2) == Extend(block, t1 + t2, l1 + l2)
    ensures Extend(block, [], []) == block
  {
    if block != [] {
      var b := block[|block| - 1];
      assert b.texts + t1 + t2 == b.texts + (t1 + t2) && b.links + l1 + l2 == b.links + (l1 + l2);
      assert b.texts + [] == b.texts && b.links + [] == b.links;
      assert Extend(block, [], []) == block[..|block| - 1] + [b];
    }
  }

  // A start tag that opens no block changes only the depth, the ids, the links and the block it stands in.
  lemma StartInPlace(st: State, tag: Tag, a: Attrs)
    requires st.chrome >= 0 && !Opens(tag, st.chrome)
    ensures OnStart(st, tag, a) == State(st.ids + OwnId(a), st.hrefs + OwnHref(tag, a), Depth(tag, st.chrome),
                                         Extend(st.block, [], Counted(tag, a, st.chrome)), st.bodyLinks)
  {
    ExtendTwice(st.block, [], [], [], []);
    assert st.ids + {} == st.ids && st.hrefs + [] == st.hrefs;
    if st.block != [] {
      var b := st.block[|st.block| - 1];
      assert b.texts + [] == b.texts;
    }
  }

  lemma StartOpens(st: State, tag: Tag, a: Attrs)
    requires st.chrome >= 0 && Opens(tag, st.chrome)
    ensures OnStart(st, tag, a) == State(st.ids + OwnId(a), st.hrefs, 0, st.block + [Block([], [])], st.bodyLinks)
    ensures OwnHref(tag, a) == [] && !IsChrome(tag)
  {
    assert st.ids + {} == st.ids;
  }

  lemma ExtendTop(block: seq<Block>, texts: seq<string>, links: seq<string>)
    ensures Extend(block + [Block([], [])], texts, links) == block + [Block(texts, links)]
  {
    assert [] + texts == texts && [] + links == links;
    assert (block + [Block([], [])])[..|block|] == block;
  }

  lemma EndCloses(st: State, tag: Tag, block: seq<Block>, texts: seq<string>, links: seq<string>)
    requires st.chrome >= 0 && Opens(tag, st.chrome) && st.block == block + [Block(texts, links)]
    ensures OnEnd(st, tag)
            == State(st.ids, st.hrefs, 0, Extend(block, [Concat(texts)], []),
                     st.bodyLinks + Pairs(links, Concat(texts)))
  {
    assert st.block[..|block|] == block;
    if block != [] {
      assert block[|block| - 1].links + [] == block[|block| - 1].links;
    }
  }

  lemma EndInPlace(st: State, tag: Tag, chrome: nat)
    requires !Opens(tag, chrome) && st.chrome == Depth(tag, chrome)
    ensures OnEnd(st, tag) == st.(chrome := chrome)
  {
  }

  // The chrome depth and the block stack are back where they were, the innermost block has grown by the document's
  // text and own links, and the links of every block inside it are recorded.
  lemma {:induction false} RunOverDocument(st: State, d: Doc)
    requires st.chrome >= 0 && Closes(d, st.chrome)
    ensures Run(st, Events(d)) == After(st, d)
    decreases d, 0
  {
    match d
    case Done =>
      ExtendTwice(st.block, [], [], [], []);
      assert st.ids + {} == st.ids && st.hrefs + [] == st.hrefs && st.bodyLinks + [] == st.bodyLinks;
    case Chars(text, next) =>
      CharsRun(st, text, next);
    case Void(tag, a, next) =>
      VoidRun(st, tag, a, next);
    case Elem(tag, a, inner, next) =>
      ElementRun(st, tag, a, inner, Events(next));
      RunOverDocument(Element(st, tag, a, inner), next);
      ElementAfter(st, tag, a, inner, next);
  }

  lemma CharsRun(st: State, text: string, next: Doc)
    requires st.chrome >= 0 && Closes(next, st.chrome)
    ensures Run(st, Events(Chars(text, next))) == After(st, Chars(text, next))
    decreases next, 2
  {
    RunOne(st, Data(text), Events(next));
    AddTextExtends(st.block, text);
    Empties(st, next);
    NextAfter(st, Step(st, Data(text)), {}, [], [text], [], [], next);
  }

  lemma VoidRun(st: State, tag: Tag, a: Attrs, next: Doc)
    requires st.chrome >= 0 && Closes(Void(tag, a, next), st.chrome)
    ensures Run(st, Events(Void(tag, a, next))) == After(st, Void(tag, a, next))
    decreases next, 2
  {
    RunOne(st, Start(tag, a), Events(next));
    StartInPlace(st, tag, a);
    Empties(st, next);
    NextAfter(st, OnStart(st, tag, a), OwnId(a), OwnHref(tag, a), [], Counted(tag, a, st.chrome), [], next);
  }

  lemma ElementAfter(st: State, tag: Tag, a: Attrs, inner: Doc, next: Doc)
    requires st.chrome >= 0
    ensures After(Element(st, tag, a, inner), next) == After(st, Elem(tag, a, inner, next))
  {
    if Opens(tag, st.chrome) {
      BlockAfter(st, tag, a, inner, next);
    } else {
      JoinAfter(st, Element(st, tag, a, inner), OwnId(a) + IdsOf(inner), OwnHref(tag, a) + HrefsOf(inner),
                Pieces(inner, Depth(tag, st.chrome)),
                Counted(tag, a, st.chrome) + OwnLinks(inner, Depth(tag, st.chrome)),
                Recorded(inner, Depth(tag, st.chrome)) + [], next);
    }
  }

  lemma BlockAfter(st: State, tag: Tag, a: Attrs, inner: Doc, next: Doc)
    requires st.chrome >= 0 && Opens(tag, st.chrome)
    ensures After(Element(st, tag, a, inner), next) == After(st, Elem(tag, a, inner, next))
  {
    JoinAfter(st, Element(st, tag, a, inner), OwnId(a) + IdsOf(inner), OwnHref(tag, a) + HrefsOf(inner),
              [Concat(Pieces(inner, st.chrome))], [],
              Recorded(inner, st.chrome) + Pairs(OwnLinks(inner, st.chrome), Concat(Pieces(inner, st.chrome))), next);
    BlockLeavesNoLink(tag, a, inner, next, st.chrome);
  }

  lemma BlockLeavesNoLink(tag: Tag, a: Attrs, inner: Doc, next: Doc, chrome: nat)
    requires Opens(tag, chrome)
    ensures OwnLinks(Elem(tag, a, inner, next), chrome) == [] + OwnLinks(next, chrome) && Depth(tag, chrome) == chrome
  {
    assert Counted(tag, a, chrome) == [];
    assert [] + [] + OwnLinks(next, chrome) == [] + OwnLinks(next, chrome);
  }

  lemma Empties(st: State, next: Doc)
    requires st.chrome >= 0
    ensures {} + IdsOf(next) == IdsOf(next) && [] + HrefsOf(next) == HrefsOf(next)
    ensures [] + Pieces(next, st.chrome) == Pieces(next, st.chrome)
    ensures [] + OwnLinks(next, st.chrome) == OwnLinks(next, st.chrome)
            && [] + Recorded(next, st.chrome) == Recorded(next, st.chrome)
    ensures st.ids + {} == st.ids && st.hrefs + [] == st.hrefs && st.bodyLinks + [] == st.bodyLinks
  {}

  // A node without content, then its siblings.
  lemma NextAfter(st: State, mid: State, ids: set<string>, hrefs: seq<string>, texts: seq<string>, links: seq<string>,
                  rec: seq<BodyLink>, next: Doc)
    requires st.chrome >= 0 && Closes(next, st.chrome) && mid == Grown(st, ids, hrefs, texts, links, rec)
    ensures Run(mid, Events(next))
            == Grown(st, ids + IdsOf(next), hrefs + HrefsOf(next), texts + Pieces(next, st.chrome),
                                            links + OwnLinks(next, st.chrome), rec + Recorded(next, st.chrome))
    decreases next, 1
  {
    RunOverDocument(mid, next);
    JoinAfter(st, mid, ids, hrefs, texts, links, rec, next);
  }

  // One element, from its start tag to its end tag, before any further events.
  lemma ElementRun(st: State, tag: Tag, a: Attrs, inner: Doc, more: seq<Event>)
    requires st.chrome >= 0 && Closes(inner, Depth(tag, st.chrome))
    ensures Run(st, [Start(tag, a)] + (Events(inner) + ([End(tag)] + more))) == Run(Element(st, tag, a, inner), more)
    decreases inner, 1
  {
    var inside := OnStart(st, tag, a);
    RunOne(st, Start(tag, a), Events(inner) + ([End(tag)] + more));
    RunAppend(inside, Events(inner), [End(tag)] + more);
    RunOverDocument(inside, inner);
    RunOne(Run(inside, Events(inner)), End(tag), more);
    ElementDone(st, tag, a, inner);
  }

  lemma AddTextExtends(block: seq<Block>, text: string)
    ensures AddText(block, text) == Extend(block, [text], [])
  {
    if block != [] { assert block[|block| - 1].links + [] == block[|block| - 1].links; }
  }

  // A state and what its siblings add to it.
  ghost function Grown(st: State, ids: set<string>, hrefs: seq<string>, texts: seq<string>, links: seq<string>,
                       rec: seq<BodyLink>): State {
    State(st.ids + ids, st.hrefs + hrefs, st.chrome, Extend(st.block, texts, links), st.bodyLinks + rec)
  }

  lemma JoinAfter(st: State, mid: State, ids: set<string>, hrefs: seq<string>, texts: seq<string>, links: seq<string>,
                  rec: seq<BodyLink>, next: Doc)
    requires st.chrome >= 0 && mid == Grown(st, ids, hrefs, texts, links, rec)
    ensures After(mid, next) == Grown(st, ids + IdsOf(next), hrefs + HrefsOf(next), texts + Pieces(next, st.chrome),
                                      links + OwnLinks(next, st.chrome), rec + Recorded(next, st.chrome))
  {
    ExtendTwice(st.block, texts, links, Pieces(next, st.chrome), OwnLinks(next, st.chrome));
    Regroup(st, ids, IdsOf(next), hrefs, HrefsOf(next), rec, Recorded(next, st.chrome));
  }

  // What one element adds to the state before it.
  ghost function Element(st: State, tag: Tag, a: Attrs, inner: Doc): State
    requires st.chrome >= 0
  {
    if Opens(tag, st.chrome) then
      Grown(st, OwnId(a) + IdsOf(inner), OwnHref(tag, a) + HrefsOf(inner), [Concat(Pieces(inner, st.chrome))],
            [], Recorded(inner, st.chrome) + Pairs(OwnLinks(inner, st.chrome), Concat(Pieces(inner, st.chrome))))
    else
      Grown(st, OwnId(a) + IdsOf(inner), OwnHref(tag, a) + HrefsOf(inner), Pieces(inner, Depth(tag, st.chrome)),
            Counted(tag, a, st.chrome) + OwnLinks(inner, Depth(tag, st.chrome)),
            Recorded(inner, Depth(tag, st.chrome)) + [])
  }

  lemma ElementDone(st: State, tag: Tag, a: Attrs, inner: Doc)
    requires st.chrome >= 0
    ensures OnStart(st, tag, a).chrome >= 0
    ensures OnEnd(After(OnStart(st, tag, a), inner), tag) == Element(st, tag, a, inner)
  {
    if Opens(tag, st.chrome) {
      BlockDone(st, tag, a, inner);
    } else {
      StartInPlace(st, tag, a);
      var chrome := Depth(tag, st.chrome);
      EndInPlace(After(OnStart(st, tag, a), inner), tag, st.chrome);
      ExtendTwice(st.block, [], Counted(tag, a, st.chrome), Pieces(inner, chrome), OwnLinks(inner, chrome));
      Regroup(st, OwnId(a), IdsOf(inner), OwnHref(tag, a), HrefsOf(inner), Recorded(inner, chrome), []);
      assert [] + Pieces(inner, chrome) == Pieces(inner, chrome);
    }
  }

  lemma BlockDone(st: State, tag: Tag, a: Attrs, inner: Doc)
    requires st.chrome >= 0 && Opens(tag, st.chrome)
    ensures OnStart(st, tag, a).chrome >= 0
    ensures OnEnd(After(OnStart(st, tag, a), inner), tag) == Element(st, tag, a, inner)
  {
    StartOpens(st, tag, a);
    var texts, links := Pieces(inner, 0), OwnLinks(inner, 0);
    ExtendTop(st.block, texts, links);
    EndCloses(After(OnStart(st, tag, a), inner), tag, st.block, texts, links);
    Regroup(st, OwnId(a), IdsOf(inner), [], HrefsOf(inner), Recorded(inner, 0), Pairs(links, Concat(texts)));
    assert st.hrefs + [] == st.hrefs;
  }

  lemma Regroup(st: State, i1: set<string>, i2: set<string>, h1: seq<string>, h2: seq<string>, r1: seq<BodyLink>,
                r2: seq<BodyLink>)
    ensures st.ids + i1 + i2 == st.ids + (i1 + i2)
    ensures st.hrefs + h1 + h2 == st.hrefs + (h1 + h2)
    ensures st.bodyLinks + r1 + r2 == st.bodyLinks + (r1 + r2)
    ensures r1 + [] == r1
  {}

  // ---------- the reference ----------

  lemma ConcatSnoc(a: seq<string>, t: string)
    ensures Concat(a + [t]) == Concat(a) + t
  {
    assert (a + [t])[..|a|] == a;
  }

  lemma {:induction false} ConcatAppend(a: seq<string>, b: seq<string>)
    ensures Concat(a + b) == Concat(a) + Concat(b)
  {
    if b == [] {
      assert a + b == a;
    } else {
      var n := |b| - 1;
      ConcatAppend(a, b[..n]);
      assert a + b == (a + b[..n]) + [b[n]];
      ConcatSnoc(a + b[..n], b[n]);
      Associate(Concat(a), Concat(b[..n]), b[n]);
    }
  }

  lemma ConcatOne(t: string)
    ensures Concat([t]) == t
  {
    assert [t][..0] == [];
  }

  // The pieces collected for a block, joined, are all the text of the document, chrome and inner blocks included.
  lemma {:induction false} PiecesAreTheText(d: Doc, chrome: nat)
    ensures Concat(Pieces(d, chrome)) == TextOf(d)
    decreases d
  {
    match d
    case Done =>
    case Chars(text, next) =>
      PiecesAreTheText(next, chrome);
      ConcatOne(text);
      ConcatAppend([text], Pieces(next, chrome));
    case Void(_, _, next) =>
      PiecesAreTheText(next, chrome);
    case Elem(tag, _, inner, next) =>
      PiecesAreTheText(next, chrome);
      PiecesAreTheText(inner, Depth(tag, chrome));
      PiecesAreTheText(inner, chrome);
      ConcatOne(Concat(Pieces(inner, chrome)));
      ConcatAppend(
        if Opens(tag, chrome) then [Concat(Pieces(inner, chrome))] else Pieces(inner, Depth(tag, chrome)),
        Pieces(next, chrome));
  }

  lemma PairsAppend(a: seq<string>, b: seq<string>, text: string)
    ensures Pairs(a + b, text) == Pairs(a, text) + Pairs(b, text)
  {}

  // Whatever order blocks close in, the recorded links and those left to the block around are the expected ones.
  lemma {:induction false} RecordedIsExpected(d: Doc, chrome: nat, text: string)
    ensures Agrees(d, chrome, text)
    decreases d
  {
    match d
    case Done =>
    case Chars(_, next) =>
      RecordedIsExpected(next, chrome, text);
    case Void(tag, a, next) =>
      RecordedIsExpected(next, chrome, text);
      PairsAppend(Counted(tag, a, chrome), OwnLinks(next, chrome), text);
      MixVoid(Pairs(Counted(tag, a, chrome), text), Recorded(next, chrome), Pairs(OwnLinks(next, chrome), text),
              Expected(next, chrome, Some(text)));
    case Elem(tag, a, inner, next) =>
      RecordedIsExpected(next, chrome, text);
      if Opens(tag, chrome) {
        RecordedIsExpected(inner, chrome, TextOf(inner));
        BlockExpected(tag, a, inner, next, chrome, text);
      } else {
        RecordedIsExpected(inner, Depth(tag, chrome), text);
        OpenExpected(tag, a, inner, next, chrome, text);
      }
  }

  lemma MixVoid<T>(h: seq<T>, r: seq<T>, q: seq<T>, x: seq<T>)
    requires multiset(r + q) == multiset(x)
    ensures multiset(r + (h + q)) == multiset(h + x)
  {
    assert multiset(r + (h + q)) == multiset(h) + (multiset(r) + multiset(q));
  }

  ghost predicate Agrees(d: Doc, chrome: nat, text: string) {
    && multiset(Recorded(d, chrome)) == multiset(Expected(d, chrome, None))
    && multiset(Recorded(d, chrome) + Pairs(OwnLinks(d, chrome), text)) == multiset(Expected(d, chrome, Some(text)))
  }

  lemma BlockExpected(tag: Tag, a: Attrs, inner: Doc, next: Doc, chrome: nat, text: string)
    requires Opens(tag, chrome) && Agrees(next, chrome, text) && Agrees(inner, chrome, TextOf(inner))
    ensures Agrees(Elem(tag, a, inner, next), chrome, text)
  {
    var p := Pairs(OwnLinks(inner, chrome), TextOf(inner));
    MixClosed(Recorded(inner, chrome), p, Recorded(next, chrome), Pairs(OwnLinks(next, chrome), text),
              Expected(inner, chrome, Some(TextOf(inner))), Expected(next, chrome, None),
              Expected(next, chrome, Some(text)));
    BlockUnfolds(tag, a, inner, next, chrome, text);
  }

  lemma BlockUnfolds(tag: Tag, a: Attrs, inner: Doc, next: Doc, chrome: nat, text: string)
    requires Opens(tag, chrome)
    ensures var d := Elem(tag, a, inner, next);
            && Recorded(d, chrome)
              == Recorded(inner, chrome) + Pairs(OwnLinks(inner, chrome), TextOf(inner)) + Recorded(next, chrome)
            && OwnLinks(d, chrome) == OwnLinks(next, chrome)
            && Expected(d, chrome, None)
              == [] + Expected(inner, chrome, Some(TextOf(inner))) + Expected(next, chrome, None)
            && Expected(d, chrome, Some(text))
              == [] + Expected(inner, chrome, Some(TextOf(inner))) + Expected(next, chrome, Some(text))
  {
    PiecesAreTheText(inner, chrome);
    assert Counted(tag, a, chrome) == [] && Depth(tag, chrome) == chrome;
    assert Here(tag, a, chrome, Some(text)) == [] && Here(tag, a, chrome, None) == [];
    assert [] + [] + OwnLinks(next, chrome) == OwnLinks(next, chrome);
  }

  lemma OpenExpected(tag: Tag, a: Attrs, inner: Doc, next: Doc, chrome: nat, text: string)
    requires !Opens(tag, chrome) && Agrees(next, chrome, text) && Agrees(inner, Depth(tag, chrome), text)
    ensures Agrees(Elem(tag, a, inner, next), chrome, text)
  {
    var here, depth := Counted(tag, a, chrome), Depth(tag, chrome);
    var d := Elem(tag, a, inner, next);
    PairsAppend(here, OwnLinks(inner, depth), text);
    PairsAppend(here + OwnLinks(inner, depth), OwnLinks(next, chrome), text);
    assert OwnLinks(d, chrome) == here + OwnLinks(inner, depth) + OwnLinks(next, chrome);
    assert Recorded(d, chrome) == Recorded(inner, depth) + [] + Recorded(next, chrome);
    MixOpen(Recorded(inner, depth), Pairs(OwnLinks(inner, depth), text), Recorded(next, chrome),
            Pairs(OwnLinks(next, chrome), text),
            Pairs(here, text), Expected(inner, depth, None), Expected(inner, depth, Some(text)),
            Expected(next, chrome, None), Expected(next, chrome, Some(text)));
  }

  // Reordering: a block's own pairs p are recorded before what follows, r, and the pairs q of the block around.
  lemma MixClosed<T>(a: seq<T>, p: seq<T>, r: seq<T>, q: seq<T>, e: seq<T>, x0: seq<T>, x: seq<T>)
    requires multiset(a + p) == multiset(e) && multiset(r) == multiset(x0) && multiset(r + q) == multiset(x)
    ensures multiset(a + p + r) == multiset([] + e + x0)
    ensures multiset(a + p + r + q) == multiset([] + e + x)
  {
    assert a + p + r + q == (a + p) + (r + q) && [] + e == e;
  }

  lemma MixOpen<T>(a: seq<T>, p: seq<T>, r: seq<T>, q: seq<T>, h: seq<T>, e0: seq<T>, e: seq<T>, x0: seq<T>, x: seq<T>)
    requires multiset(a) == multiset(e0) && multiset(a + p) == multiset(e)
    requires multiset(r) == multiset(x0) && multiset(r + q) == multiset(x)
    ensures multiset(a + [] + r) == multiset([] + e0 + x0)
    ensures multiset(a + [] + r + (h + p + q)) == multiset(h + e + x)
  {
    assert a + [] == a && [] + e0 == e0;
    assert multiset(a + r + (h + p + q)) == multiset(h) + (multiset(a) + multiset(p)) + (multiset(r) + multiset(q));
  }

  // Parsing a whole page: no chrome and no block is left open, every link and id is collected, and the body links are
  // exactly the links outside chrome that are inside a block, each with the whole text of its innermost block.
  lemma PageIsParsed(d: Doc)
    requires Closes(d, 0)
    ensures var st := Run(State({}, [], 0, [], []), Events(d));
            && st.chrome == 0 && st.block == []
            && st.hrefs == HrefsOf(d) && st.ids == IdsOf(d)
            && multiset(st.bodyLinks) == multiset(Expected(d, 0, None))
  {
    RunOverDocument(State({}, [], 0, [], []), d);
    RecordedIsExpected(d, 0, "");
    assert [] + HrefsOf(d) == HrefsOf(d) && {} + IdsOf(d) == IdsOf(d) && [] + Recorded(d, 0) == Recorded(d, 0);
  }

  // ---------- exactly which pages close ----------

  // As deep in chrome and with as many blocks open as before.
  ghost predicate Restored(before: State, after: State) {
    after.chrome == before.chrome && |after.block| == |before.block|
  }

  // No deeper in chrome only with no fewer blocks open.
  ghost predicate Keeps(before: State, after: State) {
    after.chrome >= before.chrome && (after.chrome == before.chrome ==> |after.block| >= |before.block|)
  }

  // Over any document, closed or not, the machine ends with the chrome depth and the number of open blocks it began
  // with if and only if the document closes what it opens.
  lemma {:induction false} RestoredIff(st: State, d: Doc)
    requires st.chrome >= 0
    ensures Keeps(st, Run(st, Events(d)))
    ensures Restored(st, Run(st, Events(d))) <==> Closes(d, st.chrome)
    decreases d
  {
    match d
    case Done =>
    case Chars(text, next) =>
      RunOne(st, Data(text), Events(next));
      RestoredIff(Step(st, Data(text)), next);
    case Void(tag, a, next) =>
      RunOne(st, Start(tag, a), Events(next));
      RestoredIff(OnStart(st, tag, a), next);
    case Elem(tag, a, inner, next) =>
      var inside := OnStart(st, tag, a);
      var end := Run(inside, Events(inner));
      RestoredIff(inside, inner);
      EndRestores(st, tag, a, end);
      RestoredIff(OnEnd(end, tag), next);
      RunOne(st, Start(tag, a), Events(inner) + ([End(tag)] + Events(next)));
      RunAppend(inside, Events(inner), [End(tag)] + Events(next));
      RunOne(end, End(tag), Events(next));
  }

  // The end tag undoes its start tag, and nothing of what stayed open inside.
  lemma EndRestores(st: State, tag: Tag, a: Attrs, end: State)
    requires st.chrome >= 0 && Keeps(OnStart(st, tag, a), end)
    ensures OnStart(st, tag, a).chrome == Depth(tag, st.chrome)
    ensures Keeps(st, OnEnd(end, tag))
    ensures Restored(st, OnEnd(end, tag)) <==> Restored(OnStart(st, tag, a), end)
  {}

  // A whole page leaves no chrome and no block open if and only if it closes what it opens.
  lemma PageClosesIff(d: Doc)
    ensures var st := Run(State({}, [], 0, [], []), Events(d));
            st.chrome == 0 && st.block == [] <==> Closes(d, 0)
  {
    RestoredIff(State({}, [], 0, [], []), d);
  }

  // A page with an end tag left out: its one link stays in the block that is never closed, and is not a body link.
  lemma UnclosedBlockKeepsItsLink(p: Attrs, a: Attrs, text: string)
    requires a.href.Some? && !IsSwitch(a.cls)
    ensures var d := Void(Para, p, Elem(Anchor, a, Chars(text, Done), Done));
            var st := Run(State({}, [], 0, [], []), Events(d));
            !Closes(d, 0) && st.block == [Block([text], [a.href.value])] && st.bodyLinks == []
  {
    var st := State({}, [], 0, [], []);
    var link := Elem(Anchor, a, Chars(text, Done), Done);
    RunOne(st, Start(Para, p), Events(link));
    StartOpens(st, Para, p);
    var one := OnStart(st, Para, p);
    assert one.block == [] + [Block([], [])] && one.chrome == 0;
    RunOverDocument(one, link);
    assert Pieces(Chars(text, Done), 0) == [text] && Pieces(link, 0) == [text];
    assert OwnLinks(Chars(text, Done), 0) == [] && OwnLinks(link, 0) == [a.href.value];
    ExtendTop([], [text], [a.href.value]);
    assert Recorded(Chars(text, Done), 0) == [] && Recorded(link, 0) == [];
  }

  // ---------- by the names of the tags ----------

  // The tag of a name, as the parser hands it over: in lower case.
  function TagOf(name: string): Tag {
    match name
    case "p" => Para
    case "li" => Li
    case "td" => Td
    case "th" => Th
    case "dd" => Dd
    case "h1" => H1
    case "h2" => H2
    case "h3" => H3
    case "h4" => H4
    case "nav" => Nav
    case "header" => Header
    case "footer" => Footer
    case "a" => Anchor
    case _ => Other(name)
  }

  ghost predicate BlockName(name: string) {
    || name == "p" || name == "li" || name == "td" || name == "th" || name == "dd"
    || name == "h1" || name == "h2" || name == "h3" || name == "h4"
  }

  ghost predicate ChromeName(name: string) { name == "nav" || name == "header" || name == "footer" }

  lemma NamesOfTags(name: string)
    ensures IsBlock(TagOf(name)) <==> BlockName(name)
    ensures IsChrome(TagOf(name)) <==> ChromeName(name)
    ensures TagOf(name).Anchor? <==> name == "a"
  {}

  // The class of a language switch holds the text "pq-lang" somewhere.
  lemma SwitchMeans(cls: string)
    ensures IsSwitch(cls) <==> exists before, after :: cls == before + "pq-lang" + after
  {
    if i :| 0 <= i <= |cls| - 7 && SwitchAt(cls, i) {
      assert cls == cls[..i] + "pq-lang" + cls[i + 7..];
    }
    if before, after :| cls == before + "pq-lang" + after {
      assert |"pq-lang"| == 7;
      assert SwitchAt(cls, |before|);
    }
  }

  const PLAIN := Attrs(None, None, "")

  function LinkIn(tag: Tag, a: Attrs, text: string): Doc { Elem(tag, a, Chars(text, Done), Done) }

  // A page with one element in another and one tag with a target in that.
  function OneLink(outer: string, inner: string, name: string, a: Attrs, text: string): Doc {
    Elem(TagOf(outer), PLAIN, Elem(TagOf(inner), PLAIN, LinkIn(TagOf(name), a, text), Done), Done)
  }

  // Its target is a body link, with its text, exactly when the tag is a link and no language switch, no element around
  // it is navigation, header or footer, and one of them is a paragraph, list item, cell, definition or heading.
  lemma LinkIsRecordedIff(outer: string, inner: string, name: string, id: Option<string>, href: string, cls: string,
                          text: string)
    ensures var d := OneLink(outer, inner, name, Attrs(id, Some(href), cls), text);
            multiset(Run(State({}, [], 0, [], []), Events(d)).bodyLinks)
            == if && name == "a" && !(exists before, after :: cls == before + "pq-lang" + after)
                  && !ChromeName(outer) && !ChromeName(inner) && (BlockName(outer) || BlockName(inner))
               then multiset{BodyLink(href, text)} else multiset{}
  {
    NamesOfTags(outer);
    NamesOfTags(inner);
    NamesOfTags(name);
    SwitchMeans(cls);
    var a := Attrs(id, Some(href), cls);
    LinkCloses(TagOf(outer), TagOf(inner), TagOf(name), a, text);
    PageIsParsed(OneLink(outer, inner, name, a, text));
    OuterExpected(TagOf(outer), TagOf(inner), TagOf(name), a, text);
  }

  lemma LinkCloses(outer: Tag, inner: Tag, tag: Tag, a: Attrs, text: string)
    ensures Closes(Elem(outer, PLAIN, Elem(inner, PLAIN, LinkIn(tag, a, text), Done), Done), 0)
  {
    var depth := Depth(inner, Depth(outer, 0));
    assert Closes(Chars(text, Done), Depth(tag, depth));
    assert Closes(LinkIn(tag, a, text), depth);
  }

  lemma LinkExpected(tag: Tag, a: Attrs, text: string, chrome: nat, around: Option<string>)
    requires a.href.Some?
    ensures TextOf(LinkIn(tag, a, text)) == text
    ensures Expected(LinkIn(tag, a, text), chrome, around)
            == if tag.Anchor? && around.Some? && chrome == 0 && !IsSwitch(a.cls)
               then [BodyLink(a.href.value, around.value)] else []
  {
    assert TextOf(Chars(text, Done)) == text;
    assert Expected(Chars(text, Done), Depth(tag, chrome), if Opens(tag, chrome) then Some(text) else around) == [];
  }

  lemma AroundExpected(tag: Tag, inside: Doc, chrome: nat, around: Option<string>)
    ensures TextOf(Elem(tag, PLAIN, inside, Done)) == TextOf(inside)
    ensures Expected(Elem(tag, PLAIN, inside, Done), chrome, around)
            == Expected(inside, Depth(tag, chrome), if Opens(tag, chrome) then Some(TextOf(inside)) else around)
  {
    assert Here(tag, PLAIN, chrome, around) == [];
    assert TextOf(Done) == "" && Expected(Done, chrome, around) == [];
  }

  lemma OuterExpected(outer: Tag, inner: Tag, tag: Tag, a: Attrs, text: string)
    requires a.href.Some?
    ensures Expected(Elem(outer, PLAIN, Elem(inner, PLAIN, LinkIn(tag, a, text), Done), Done), 0, None)
            == if && tag.Anchor? && !IsSwitch(a.cls) && !IsChrome(outer) && !IsChrome(inner)
                  && (IsBlock(outer) || IsBlock(inner))
               then [BodyLink(a.href.value, text)] else []
  {
    var link := LinkIn(tag, a, text);
    var depth, around := Depth(outer, 0), if Opens(outer, 0) then Some(text) else None;
    LinkExpected(tag, a, text, Depth(inner, depth), if Opens(inner, depth) then Some(text) else around);
    AroundExpected(inner, link, depth, around);
    AroundExpected(outer, Elem(inner, PLAIN, link, Done), 0, None);
  }
}
