// Laying the language switch over a page's text, and stripping it again.
module LangText {
  import opened Text

  // The texts the pass looks for and writes: the start and end of an earlier switch, the style, and the body's end.
  datatype Marks = Marks(open: string, close: string, style: string, body: string)

  // The marker and its end are different tags, the style holds neither, and no end of the style is also a start of it.
  ghost predicate GoodMarks(m: Marks) {
    && OneTag(m.open) && OneTag(m.close) && m.open[1] != m.close[1]
    && |m.style| > 1 && m.style[0] == '<' && !Occurs(m.open, m.style) && !Occurs(m.close, m.style) && NoBorder(m.style)
    && m.body != ""
  }

  ghost predicate OneTag(w: string) { |w| > 1 && w[0] == '<' && forall i :: 1 <= i < |w| ==> w[i] != '<' }

  ghost predicate NoBorder(w: string) { forall n :: 0 < n < |w| ==> w[..n] != w[|w| - n..] }

  predicate At(s: string, w: string, i: nat) { i + |w| <= |s| && forall k :: 0 <= k < |w| ==> s[i + k] == w[k] }

  // The first place of w from i on, or the length of the text.
  function Find(s: string, w: string, i: nat): (k: nat)
    requires i <= |s|
    ensures i <= k <= |s| && (k < |s| ==> At(s, w, k)) && forall j :: i <= j < k ==> !At(s, w, j)
    decreases |s| - i
  {
    if i == |s| || At(s, w, i) then i else Find(s, w, i + 1)
  }

  // A marker stands at i, and an end after it.
  predicate Switch(m: Marks, h: string, i: nat) {
    At(h, m.open, i) && Find(h, m.close, i + |m.open|) < |h|
  }

  // Where the first end after the marker ends.
  function SwitchEnd(m: Marks, h: string, i: nat): (n: nat)
    requires Switch(m, h, i) && |m.close| > 0
    ensures i < n <= |h|
  {
    Find(h, m.close, i + |m.open|) + |m.close|
  }

  // re.sub of 'open.*?close' by nothing: from each marker to the first end after it.
  function DropSwitches(m: Marks, h: string, i: nat): string
    requires i <= |h| && |m.open| > 0 && |m.close| > 0
    decreases |h| - i
  {
    if i == |h| then ""
    else if Switch(m, h, i) then DropSwitches(m, h, SwitchEnd(m, h, i))
    else [h[i]] + DropSwitches(m, h, i + 1)
  }

  // str.replace of the style by nothing.
  function DropStyle(m: Marks, h: string, i: nat): string
    requires i <= |h| && |m.style| > 0
    decreases |h| - i
  {
    if i == |h| then ""
    else if At(h, m.style, i) then DropStyle(m, h, i + |m.style|)
    else [h[i]] + DropStyle(m, h, i + 1)
  }

  function Strip(m: Marks, h: string): string
    requires |m.open| > 0 && |m.close| > 0 && |m.style| > 0
  {
    DropStyle(m, DropSwitches(m, h, 0), 0)
  }

  // str.replace(body, text + body, 1); the original stops when there is no body end.
  function InsertBeforeBody(m: Marks, h: string, text: string): Option<string> {
    var k := Find(h, m.body, 0);
    if k == |h| then None else Some(h[..k] + text + h[k..])
  }

  function Apply(m: Marks, h: string, link: string): Option<string>
    requires |m.open| > 0 && |m.close| > 0 && |m.style| > 0
  {
    InsertBeforeBody(m, Strip(m, h), m.style + link)
  }

  // A switch as written: its marker, attributes and label, and its end.
  ghost predicate IsSwitchText(m: Marks, link: string) {
    exists mid :: link == m.open + mid + m.close && '<' !in mid
  }

  // A page that carries no switch and no style of ours.
  ghost predicate Fresh(m: Marks, h: string) { forall i: nat :: !At(h, m.open, i) && !At(h, m.style, i) }

  lemma {:induction false} NothingToDrop(m: Marks, h: string, i: nat)
    requires GoodMarks(m) && i <= |h|
    ensures (forall j :: i <= j < |h| ==> !At(h, m.open, j)) ==> DropSwitches(m, h, i) == h[i..]
    ensures (forall j :: i <= j < |h| ==> !At(h, m.style, j)) ==> DropStyle(m, h, i) == h[i..]
    decreases |h| - i
  {
    if i >= |h| {
    } else {
      NothingToDrop(m, h, i + 1);
      assert h[i..] == [h[i]] + h[i + 1..];
    }
  }

  // Up to a place k before which no marker starts, nothing is dropped.
  lemma {:induction false} CopySwitches(m: Marks, h: string, i: nat, k: nat)
    requires |m.open| > 0 && |m.close| > 0 && i <= k <= |h| && forall j :: i <= j < k ==> !At(h, m.open, j)
    ensures DropSwitches(m, h, i) == h[i..k] + DropSwitches(m, h, k)
    decreases k - i
  {
    if i < k {
      CopySwitches(m, h, i + 1, k);
      assert h[i..k] == [h[i]] + h[i + 1..k];
    }
  }

  lemma {:induction false} CopyStyle(m: Marks, h: string, i: nat, k: nat)
    requires |m.style| > 0 && i <= k <= |h| && forall j :: i <= j < k ==> !At(h, m.style, j)
    ensures DropStyle(m, h, i) == h[i..k] + DropStyle(m, h, k)
    decreases k - i
  {
    if i < k {
      CopyStyle(m, h, i + 1, k);
      assert h[i..k] == [h[i]] + h[i + 1..k];
    }
  }

  // A one-tag text starts inside p + q, with q starting a tag, only inside p or inside q.
  lemma TagDoesNotStraddle(w: string, p: string, q: string, i: nat)
    requires OneTag(w) && q != "" && q[0] == '<' && i < |p| && At(p + q, w, i)
    ensures i + |w| <= |p| && At(p, w, i)
  {
    if i + |w| > |p| {
      StraddleHolds(w, p, q, i);
    } else {
      assert (p + q)[i..i + |w|] == p[i..i + |w|];
    }
  }

  lemma StraddleHolds(w: string, p: string, q: string, i: nat)
    requires q != "" && i < |p| < i + |w| && At(p + q, w, i)
    ensures w[|p| - i] == q[0]
  {
    assert (p + q)[i..i + |w|][|p| - i] == q[0];
  }

  lemma AtInLeft(w: string, p: string, q: string, i: nat)
    requires At(p, w, i)
    ensures At(p + q, w, i)
  {}

  lemma AtInRight(w: string, p: string, q: string, i: nat)
    requires i >= |p|
    ensures At(p + q, w, i) <==> At(q, w, i - |p|)
  {
    if i + |w| <= |p + q| {
      forall k | 0 <= k < |w| ensures (p + q)[i + k] == w[k] <==> q[i - |p| + k] == w[k] {
        assert (p + q)[i + k] == q[i - |p| + k];
      }
    }
  }

  // Dropping the switches of a page with one inserted drops that one.
  lemma SwitchIsDropped(m: Marks, a: string, mid: string, b: string)
    requires GoodMarks(m) && '<' !in mid && (forall i: nat :: !At(a, m.open, i)) && forall i: nat :: !At(b, m.open, i)
    ensures DropSwitches(m, a + ((m.open + mid + m.close) + b), 0) == a + b
  {
    var q := (m.open + mid + m.close) + b;
    var h, k := a + q, |a| + |m.open| + |mid|;
    CopyBefore(m, a, q);
    Regroup(a, m.open, mid, m.close, b);
    AtMiddle(a, m.open, mid + m.close + b);
    FirstEnd(m, a + m.open, mid, b);
    NoneAfter(m, a + m.open + mid + m.close, b);
    SwitchThere(m, h, |a|, k);
    assert h[k + |m.close|..] == b;
  }

  // From a switch at i that ends at k, nothing is left but the text after it, which has none.
  lemma {:induction false} SwitchThere(m: Marks, h: string, i: nat, k: nat)
    requires GoodMarks(m) && i < |h| && At(h, m.open, i) && k < |h| && Find(h, m.close, i + |m.open|) == k
    requires forall j :: k + |m.close| <= j < |h| ==> !At(h, m.open, j)
    ensures k + |m.close| <= |h| && DropSwitches(m, h, i) == h[k + |m.close|..]
  {
    SwitchGoes(m, h, i, k);
    NothingToDrop(m, h, k + |m.close|);
  }

  lemma NoneAfter(m: Marks, p: string, b: string)
    requires forall i: nat :: !At(b, m.open, i)
    ensures forall j :: |p| <= j < |p + b| ==> !At(p + b, m.open, j)
  {
    forall j | |p| <= j < |p + b| ensures !At(p + b, m.open, j) { AtInRight(m.open, p, b, j); }
  }

  lemma CopyBefore(m: Marks, a: string, q: string)
    requires GoodMarks(m) && q != "" && q[0] == '<' && forall i: nat :: !At(a, m.open, i)
    ensures DropSwitches(m, a + q, 0) == a + DropSwitches(m, a + q, |a|)
  {
    var h := a + q;
    forall j | 0 <= j < |a| ensures !At(h, m.open, j) {
      if At(h, m.open, j) { TagDoesNotStraddle(m.open, a, q, j); }
    }
    CopySwitches(m, h, 0, |a|);
    assert h[0..|a|] == a;
  }

  lemma {:induction false} SwitchGoes(m: Marks, h: string, i: nat, k: nat)
    requires GoodMarks(m) && i < |h| && At(h, m.open, i) && k < |h| && Find(h, m.close, i + |m.open|) == k
    ensures k + |m.close| <= |h| && DropSwitches(m, h, i) == DropSwitches(m, h, k + |m.close|)
  {}

  lemma Regroup(a: string, b: string, c: string, d: string, e: string)
    ensures a + ((b + c + d) + e) == (a + b) + c + d + e == a + b + (c + d + e)
  {}

  lemma AtMiddle(a: string, w: string, b: string)
    ensures At(a + w + b, w, |a|)
  {
    assert (a + w + b)[|a|..|a| + |w|] == w;
  }

  lemma FirstEnd(m: Marks, p: string, mid: string, b: string)
    requires GoodMarks(m) && '<' !in mid
    ensures Find(p + mid + m.close + b, m.close, |p|) == |p| + |mid|
  {
    var h := p + mid + m.close + b;
    var end := |p| + |mid|;
    assert h[end..end + |m.close|] == m.close;
    assert At(h, m.close, end);
    forall j | |p| <= j < end ensures !At(h, m.close, j) {
      assert h[j] == mid[j - |p|];
      NotATag(h, m.close, j);
    }
  }

  lemma NotATag(h: string, w: string, j: nat)
    requires w != "" && j < |h| && h[j] != w[0]
    ensures !At(h, w, j)
  {
    if j + |w| <= |h| { assert h[j..j + |w|][0] == h[j]; }
  }

  // A style inserted into a page that has none is the only one, and dropping it gives the page back.
  lemma StyleIsDropped(m: Marks, a: string, b: string)
    requires GoodMarks(m) && forall i: nat :: !At(a + b, m.style, i)
    ensures DropStyle(m, a + m.style + b, 0) == a + b
  {
    var h := a + m.style + b;
    forall j | 0 <= j < |a| ensures !At(h, m.style, j) {
      if At(h, m.style, j) { StyleDoesNotStraddle(m, a, b, j); }
    }
    CopyStyle(m, h, 0, |a|);
    assert h[0..|a|] == a && h[|a|..|a| + |m.style|] == m.style;
    var rest := |a| + |m.style|;
    forall j | rest <= j < |h| ensures !At(h, m.style, j) {
      AtInRight(m.style, a + m.style, b, j);
      AtInRight(m.style, a, b, j - |m.style|);
    }
    NothingToDrop(m, h, rest);
    assert h[rest..] == b;
  }

  lemma StyleDoesNotStraddle(m: Marks, a: string, b: string, j: nat)
    requires GoodMarks(m) && j < |a| && At(a + m.style + b, m.style, j)
    ensures At(a + b, m.style, j)
  {
    var h, n := a + m.style + b, |m.style|;
    if j + n <= |a| {
      assert h[j..j + n] == (a + b)[j..j + n];
    } else {
      StraddleIsBorder(m.style, a, b, j);
    }
  }

  lemma StraddleIsBorder(w: string, a: string, b: string, j: nat)
    requires j < |a| < j + |w| && At(a + w + b, w, j)
    ensures !NoBorder(w)
  {
    var h, n, d := a + w + b, |w|, |a| - j;
    assert w[d..] == h[j..j + n][d..];
    assert h[j..j + n][d..] == h[|a|..j + n];
    assert h[|a|..j + n] == w[..n - d];
    assert w[..n - d] == w[n - (n - d)..];
  }

  // A page with a switch laid over it, stripped, is the page it was laid over.
  lemma StripUndoesInsert(m: Marks, h: string, k: nat, link: string)
    requires GoodMarks(m) && Fresh(m, h) && IsSwitchText(m, link) && k <= |h|
    ensures Strip(m, h[..k] + (m.style + link) + h[k..]) == h
  {
    var a, b := h[..k], h[k..];
    var mid :| link == m.open + mid + m.close && '<' !in mid;
    assert a + b == h;
    NoSwitchBefore(m, a, b);
    forall i: nat ensures !At(b, m.open, i) { AtInRight(m.open, a, b, i + |a|); }
    SwitchIsDropped(m, a + m.style, mid, b);
    Regroup3(a, m.style, link, b);
    StyleIsDropped(m, a, b);
  }

  lemma Regroup3(a: string, s: string, l: string, b: string)
    ensures a + (s + l) + b == (a + s) + (l + b)
  {}

  lemma NoSwitchBefore(m: Marks, a: string, b: string)
    requires GoodMarks(m) && Fresh(m, a + b)
    ensures forall i: nat :: !At(a + m.style, m.open, i)
  {
    forall i: nat ensures !At(a + m.style, m.open, i) {
      if At(a + m.style, m.open, i) {
        if i < |a| {
          TagDoesNotStraddle(m.open, a, m.style, i);
          AtInLeft(m.open, a, b, i);
        } else {
          AtInRight(m.open, a, m.style, i);
          AtIsOccurrence(m.style, m.open, i - |a|);
        }
      }
    }
  }

  lemma AtIsOccurrence(s: string, w: string, i: nat)
    requires At(s, w, i)
    ensures Occurs(w, s)
  {
    assert OccursAt(w, s, i);
  }

  // A page that carries nothing of ours is its own stripped page.
  lemma FreshIsStripped(m: Marks, h: string)
    requires GoodMarks(m) && Fresh(m, h)
    ensures Strip(m, h) == h
  {
    NothingToDrop(m, h, 0);
    assert h[0..] == h;
  }

  // ---------- the shipped marks ----------

  // The rules of the style element.
  function Css(): string { Placing() + Colours() + Edges() }

  function Placing(): string {
    ".pq-lang{position:fixed;" + "right:16px;bottom:16px;" + "z-index:50;" + "padding:6px 14px;" + "border-radius:16px;"
  }

  function Colours(): string {
    "background:#1a2233;" + "color:#fff;" + "font:600 13px/1.4 " + "system-ui,sans-serif;" + "text-decoration:none;"
  }

  function Edges(): string {
    "border:1px solid " + "rgba(255,255,255,.35);" + "box-shadow:0 1px 6px " + "rgba(0,0,0,.3)}" + ".pq-lang:hover"
      + "{background:#c0453e}"
  }

  function Style(css: string): string { "<style>" + css + "</style>" }

  const SHIPPED := Marks("<a class=\"pq-lang\"", "</a>", Style(Css()), "</body>")

  // A style element with no tag inside it is none of its own ends, and holds no marker.
  lemma StyleStartsOnce(css: string, i: nat)
    requires '<' !in css && i < |Style(css)|
    ensures Style(css)[i] == '<' ==> i == 0 || (i == |Style(css)| - 8 && Style(css)[i + 1] == '/')
  {
    var open, end := "<style>", "</style>";
    assert |open| == 7 && |end| == 8;
    if 0 < i < 7 {
      assert Style(css)[i] == open[i];
    } else if 7 <= i < 7 + |css| {
      assert Style(css)[i] == css[i - 7];
    } else if i >= 7 + |css| {
      assert Style(css)[i] == end[i - 7 - |css|];
    }
  }

  lemma StyleHasNoBorder(css: string)
    requires '<' !in css
    ensures NoBorder(Style(css))
  {
    var w := Style(css);
    assert w[0] == '<' && w[1] == 's' && |w| == |css| + 15 && w[|w| - 1] == '>';
    forall n | 0 < n < |w| ensures w[..n] != w[|w| - n..] {
      assert w[|w| - n..][0] == w[|w| - n] && w[..n][0] == '<';
      if w[|w| - n] == '<' {
        StyleStartsOnce(css, |w| - n);
        assert n == 8 && w[|w| - n..][1] == w[|w| - n + 1] == '/' && w[..n][1] == 's';
      }
    }
  }

  // A tag that is no style tag does not occur in it.
  lemma StyleHoldsNone(css: string, tag: string)
    requires '<' !in css && |tag| > 2 && tag[0] == '<' && tag[1] != 's' && (tag[1] == '/' ==> tag[2] != 's')
    ensures !Occurs(tag, Style(css))
  {
    var w := Style(css);
    forall i | OccursAt(tag, w, i) ensures false {
      OccursAtByte(tag, w, i, 0);
      OccursAtByte(tag, w, i, 1);
      OccursAtByte(tag, w, i, 2);
      StyleStartsOnce(css, i);
      StyleTags(css);
    }
  }

  lemma StyleTags(css: string)
    ensures var w := Style(css);
            && |w| == |css| + 15 && w[0] == '<' && w[1] == 's'
            && w[|w| - 8] == '<' && w[|w| - 7] == '/' && w[|w| - 6] == 's'
  {
    var open, end := "<style>", "</style>";
    assert |open| == 7 && |end| == 8 && Style(css) == open + css + end;
    assert open[0] == '<' && open[1] == 's' && end[0] == '<' && end[1] == '/' && end[2] == 's';
  }

  // The marks the program ships meet what the laws above ask of them.
  lemma ShippedMarksAreGood()
    ensures GoodMarks(SHIPPED)
  {
    OpenIsATag();
    CloseIsATag();
    CssHasNoTag();
    StyleHasNoBorder(Css());
    StyleHoldsNone(Css(), SHIPPED.open);
    StyleHoldsNone(Css(), SHIPPED.close);
    StyleTags(Css());
    assert SHIPPED.body[0] == '<';
  }

  lemma OpenIsATag()
    ensures OneTag(SHIPPED.open) && |SHIPPED.open| == 18 && SHIPPED.open[1] == 'a'
  {}

  lemma CloseIsATag()
    ensures OneTag(SHIPPED.close) && |SHIPPED.close| == 4 && SHIPPED.close[1] == '/' && SHIPPED.close[2] == 'a'
  {}

  lemma CssHasNoTag()
    ensures '<' !in Css()
  {
    PlacingHasNoTag();
    ColoursHasNoTag();
    EdgesHasNoTag();
  }

  lemma PlacingHasNoTag()
    ensures '<' !in Placing()
  {}

  lemma ColoursHasNoTag()
    ensures '<' !in Colours()
  {}

  lemma EdgesHasNoTag()
    ensures '<' !in Edges()
  {}
}
