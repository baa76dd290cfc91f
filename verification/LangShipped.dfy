// The language switch as it ships: its texts meet what the laws ask for, and a page on which a second run differs.
module LangShipped {
  import opened Text
  import opened LangText
  import opened LangLaid
  import opened LangAttribute
  import opened LangRuns

  const HTML := Lang("<html lang=\"", "ko")

  lemma HtmlIsATag()
    ensures OneTag(HTML.tag) && |HTML.tag| == 12 && HTML.tag[1] == 'h' && IsLang(HTML.value) && |HTML.value| == 2
  {}

  lemma BodyIsATag()
    ensures var w := SHIPPED.body; OneTag(w) && |w| == 7 && w[1] == '/' && w[2] == 'b'
  {}

  lemma StyleIsShy(css: string)
    requires '<' !in css
    ensures Shy(Style(css), HTML.tag)
  {
    var w := Style(css);
    HtmlIsATag();
    StyleTags(css);
    forall i | 0 <= i < |w| && w[i] == '<' ensures i + 1 < |w| && w[i + 1] != HTML.tag[1] {
      StyleStartsOnce(css, i);
    }
  }

  lemma ShippedLangIsGood()
    ensures GoodLang(SHIPPED, HTML)
  {
    HtmlIsATag();
    OpenIsATag();
    CloseIsATag();
    BodyIsATag();
    CssHasNoTag();
    StyleIsShy(Css());
  }

  // What stands between the marker and its end: the target, the languages and the label.
  function Inside(href: string, lang: string, shown: string): string {
    " href=\"" + href + "\" hreflang=\"" + lang + "\" lang=\"" + lang + "\">" + shown
  }

  function Link(href: string, lang: string, shown: string): string {
    SHIPPED.open + Inside(href, lang, shown) + SHIPPED.close
  }

  // The link of either language is a switch for any target without a tag.
  lemma LinkIsASwitch(href: string, lang: string, shown: string)
    requires '<' !in href && '<' !in lang && '<' !in shown
    ensures IsSwitchText(SHIPPED, Link(href, lang, shown))
  {
    LinkHasNoTag(href, lang, shown);
  }

  // So with the texts of the program a second run changes nothing exactly on the pages that stripping leaves settled.
  lemma ShippedRunAgainIff(korean: bool, h: string, href: string, lang: string, shown: string)
    requires '<' !in href && '<' !in lang && '<' !in shown
    requires Run(SHIPPED, HTML, korean, h, Link(href, lang, shown)).Some?
    ensures var link := Link(href, lang, shown);
            Run(SHIPPED, HTML, korean, Run(SHIPPED, HTML, korean, h, link).value, link)
            == Run(SHIPPED, HTML, korean, h, link)
            <==> SettledPage(SHIPPED, Strip(SHIPPED, h))
  {
    ShippedMarksAreGood();
    ShippedLangIsGood();
    LinkIsASwitch(href, lang, shown);
    SecondRunIff(SHIPPED, HTML, korean, h, Link(href, lang, shown));
  }

  // ---------- a page on which a second run differs ----------

  // A switch inside a marker: taking it away leaves a marker with an end.
  function Nested(m: Marks, x: string, mid: string, y: string): string {
    x + ((m.open + mid + m.close) + (y + m.close + m.body))
  }

  // The texts are short tags told apart by their first letters, and shorter than the style.
  ghost predicate Short(m: Marks) {
    && OneTag(m.body) && |m.body| > 2 && |m.close| > 2 && |m.open| > 1
    && m.body[1] != m.open[1] && m.body[2] != m.close[2]
    && |m.open| + |m.close| + |m.body| < |m.style|
  }

  lemma {:induction false} NoMarkerIn(m: Marks, y: string, i: nat)
    requires GoodMarks(m) && Short(m) && '<' !in y
    ensures !At(y + m.close + m.body, m.open, i)
  {
    var b := y + m.close + m.body;
    if At(b, m.open, i) {
      assert b[i + 0] == m.open[0] && b[i + 1] == m.open[1];
      TagOfTail(m, y, i);
    }
  }

  // Every tag in the text starts as an end does.
  lemma TagOfTail(m: Marks, y: string, i: nat)
    requires GoodMarks(m) && Short(m) && '<' !in y
    requires i + 1 < |y + m.close + m.body| && (y + m.close + m.body)[i] == '<'
    ensures (y + m.close + m.body)[i + 1] != m.open[1]
  {
    var b := y + m.close + m.body;
    NoTagIn(y, m.close + m.body, i);
    if i < |y| + |m.close| {
      assert b[i] == m.close[i - |y|] && b[i + 1] == (m.close + m.body)[i - |y| + 1];
    } else {
      assert b[i] == m.body[i - |y| - |m.close|];
    }
  }

  lemma NoTagIn(y: string, q: string, i: nat)
    requires '<' !in y && i < |y + q| && (y + q)[i] == '<'
    ensures i >= |y|
  {
    assert forall k :: 0 <= k < |y| ==> (y + q)[k] == y[k] && y[k] in y;
  }

  lemma {:induction false} NestedIsStripped(m: Marks, x: string, mid: string, y: string)
    requires GoodMarks(m) && Short(m) && m.open == x + y && x != "" && y != "" && '<' !in mid
    ensures Strip(m, Nested(m, x, mid, y)) == m.open + m.close + m.body
  {
    var b := y + m.close + m.body;
    TailHasNoTag(m.open, x, y);
    forall i: nat ensures !At(b, m.open, i) { NoMarkerIn(m, y, i); }
    SwitchIsDropped(m, x, mid, b);
    assert x + b == m.open + m.close + m.body;
    StyleShortens(m, x + b, 0);
    WholeCut(x + b);
  }

  lemma TailHasNoTag(w: string, x: string, y: string)
    requires OneTag(w) && w == x + y && x != ""
    ensures '<' !in y
  {
    forall i | 0 <= i < |y| ensures y[i] != '<' { assert y[i] == w[|x| + i]; }
  }

  lemma {:induction false} MarkerIsUnsettled(m: Marks)
    requires GoodMarks(m) && Short(m)
    ensures BodyAt(m, m.open + m.close, m.body) && !Settled(m, m.open + m.close, m.body)
  {
    var a := m.open + m.close;
    assert At(a, m.open, 0);
    forall j | 0 <= j < |a| ensures !At(a + m.body, m.body, j) {
      if At(a + m.body, m.body, j) {
        assert (a + m.body)[j + 0] == m.body[0] && (a + m.body)[j + 1] == m.body[1];
        assert (a + m.body)[j + 2] == m.body[2];
        TagsOfMarker(m, j);
      }
    }
    assert At(a + m.body, m.body, |a|);
  }

  lemma TagsOfMarker(m: Marks, j: nat)
    requires GoodMarks(m) && Short(m) && j < |m.open| + |m.close| && (m.open + m.close + m.body)[j] == '<'
    ensures var s := m.open + m.close + m.body; s[j + 1] == m.open[1] || s[j + 2] == m.close[2]
  {
    var s := m.open + m.close + m.body;
    if j < |m.open| {
      assert s[j] == m.open[j] && s[1] == m.open[1];
    } else {
      assert s[j] == m.close[j - |m.open|] && s[|m.open| + 2] == m.close[2];
    }
  }

  // On that page a second run is another page, whatever the link.
  lemma {:induction false} NestedRunsDiffer(m: Marks, t: Lang, korean: bool, x: string, mid: string, y: string,
                                            link: string)
    requires GoodMarks(m) && GoodLang(m, t) && Short(m) && m.open == x + y && x != "" && y != "" && '<' !in mid
    requires IsSwitchText(m, link)
    ensures var h := Nested(m, x, mid, y);
            && Run(m, t, korean, h, link).Some?
            && Run(m, t, korean, Run(m, t, korean, h, link).value, link) != Run(m, t, korean, h, link)
  {
    var h := Nested(m, x, mid, y);
    NestedIsStripped(m, x, mid, y);
    MarkerIsUnsettled(m);
    SettledHere(m, m.open + m.close, m.body);
    RunIs(m, t, korean, h, link, m.open + m.close, m.body);
    SecondRunIff(m, t, korean, h, link);
  }

  lemma StyleIsLong()
    ensures |SHIPPED.style| > 40
  {
    assert |Css()| >= |Placing()| >= |".pq-lang{position:fixed;"| >= 20;
    StyleTags(Css());
    ColoursAreLong();
  }

  lemma ColoursAreLong()
    ensures |Colours()| >= 19
  {
    assert |"background:#1a2233;"| == 19;
  }

  lemma ShippedIsShort()
    ensures Short(SHIPPED)
  {
    OpenIsATag();
    CloseIsATag();
    BodyIsATag();
    StyleIsLong();
  }

  lemma MarkerSplits()
    ensures SHIPPED.open == "<a class=\"pq" + "-lang\""
  {}

  // With the texts of the program: a page that holds a switch inside a broken marker. The second run takes away what
  // the first one left of it.
  lemma SecondRunCanDiffer(korean: bool, href: string, lang: string, shown: string)
    requires '<' !in href && '<' !in lang && '<' !in shown
    ensures var h := Nested(SHIPPED, "<a class=\"pq", Inside(href, lang, shown), "-lang\"");
            var link := Link(href, lang, shown);
            && Run(SHIPPED, HTML, korean, h, link).Some?
            && Run(SHIPPED, HTML, korean, Run(SHIPPED, HTML, korean, h, link).value, link)
               != Run(SHIPPED, HTML, korean, h, link)
  {
    ShippedMarksAreGood();
    ShippedLangIsGood();
    ShippedIsShort();
    MarkerSplits();
    LinkIsASwitch(href, lang, shown);
    LinkHasNoTag(href, lang, shown);
    NestedRunsDiffer(SHIPPED, HTML, korean, "<a class=\"pq", Inside(href, lang, shown), "-lang\"",
                     Link(href, lang, shown));
  }

  lemma LinkHasNoTag(href: string, lang: string, shown: string)
    requires '<' !in href && '<' !in lang && '<' !in shown
    ensures '<' !in Inside(href, lang, shown)
  {
    assert '<' !in " href=\"" && '<' !in "\" hreflang=\"" && '<' !in "\" lang=\"" && '<' !in "\">";
  }
}
