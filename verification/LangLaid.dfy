// Stripping a page that a switch is laid in: exactly when it gives the page back.
module LangLaid {
  import opened Text
  import opened LangText

  ghost predicate NoneIn(s: string, w: string) { forall i: nat :: !At(s, w, i) }

  ghost predicate NoneFrom(s: string, w: string, from: nat) { forall i: nat :: from <= i ==> !At(s, w, i) }

  // No marker from a place on is followed by an end.
  ghost predicate UnclosedFrom(m: Marks, s: string, from: nat) {
    forall i: nat, j: nat :: from <= i && i + |m.open| <= j ==> !(At(s, m.open, i) && At(s, m.close, j))
  }

  ghost predicate Sized(m: Marks) { |m.open| > 1 && |m.close| > 1 && |m.style| > 1 }

  // What a page must look like, before and after the place the switch is laid at, for stripping to take that switch
  // and no more: no marker before it, no marker with an end after it, and no style on either side.
  ghost predicate Settled(m: Marks, a: string, b: string) {
    NoneIn(a, m.open) && NoneIn(a, m.style) && NoneIn(b, m.style) && UnclosedFrom(m, b, 0)
  }

  // ---------- how much is dropped ----------

  lemma {:induction false} SwitchesShorten(m: Marks, s: string, i: nat)
    requires Sized(m) && i <= |s|
    ensures UnclosedFrom(m, s, i) ==> DropSwitches(m, s, i) == Cut(s, i, |s|)
    ensures !UnclosedFrom(m, s, i) ==> |DropSwitches(m, s, i)| + 2 <= |s| - i
    decreases |s| - i
  {
    if i == |s| {
    } else if Switch(m, s, i) {
      SwitchesShorten(m, s, SwitchEnd(m, s, i));
      SwitchIsClosed(m, s, i);
    } else {
      SwitchesShorten(m, s, i + 1);
      NoCloseHere(m, s, i);
      CutFirst(s, i);
    }
  }

  lemma {:induction false} SwitchIsClosed(m: Marks, s: string, i: nat)
    requires Sized(m) && Switch(m, s, i)
    ensures !UnclosedFrom(m, s, i) && SwitchEnd(m, s, i) >= i + 2
  {
    assert At(s, m.open, i) && At(s, m.close, Find(s, m.close, i + |m.open|));
  }

  lemma CutFirst(s: string, i: nat)
    requires i < |s|
    ensures Cut(s, i, |s|) == [s[i]] + Cut(s, i + 1, |s|)
  {}

  lemma {:induction false} NoCloseHere(m: Marks, s: string, i: nat)
    requires Sized(m) && i < |s| && !Switch(m, s, i)
    ensures UnclosedFrom(m, s, i) <==> UnclosedFrom(m, s, i + 1)
  {
    if UnclosedFrom(m, s, i + 1) {
      forall x: nat, y: nat | i <= x && x + |m.open| <= y ensures !(At(s, m.open, x) && At(s, m.close, y)) {}
    }
  }

  lemma {:induction false} StyleShortens(m: Marks, s: string, i: nat)
    requires Sized(m) && i <= |s|
    ensures NoneFrom(s, m.style, i) ==> DropStyle(m, s, i) == Cut(s, i, |s|)
    ensures !NoneFrom(s, m.style, i) ==> |DropStyle(m, s, i)| + 2 <= |s| - i
    decreases |s| - i
  {
    if i == |s| {
    } else if At(s, m.style, i) {
      StyleShortens(m, s, i + |m.style|);
    } else {
      StyleShortens(m, s, i + 1);
      assert NoneFrom(s, m.style, i) <==> NoneFrom(s, m.style, i + 1);
      CutFirst(s, i);
    }
  }

  // ---------- a text read from its middle on ----------

  lemma {:induction false} FindInRight(p: string, q: string, w: string, i: nat)
    requires i <= |q|
    ensures Find(p + q, w, |p| + i) == |p| + Find(q, w, i)
    decreases |q| - i
  {
    if i == |q| {
    } else {
      AtInRight(w, p, q, |p| + i);
      FindInRight(p, q, w, i + 1);
    }
  }

  lemma {:induction false} SwitchesInRight(m: Marks, p: string, q: string, i: nat)
    requires Sized(m) && i <= |q|
    ensures DropSwitches(m, p + q, |p| + i) == DropSwitches(m, q, i)
    decreases |q| - i
  {
    if i == |q| {
    } else {
      SwitchInRight(m, p, q, i);
      assert (p + q)[|p| + i] == q[i];
      SwitchesInRight(m, p, q, if Switch(m, q, i) then SwitchEnd(m, q, i) else i + 1);
    }
  }

  lemma {:induction false} SwitchInRight(m: Marks, p: string, q: string, i: nat)
    requires Sized(m) && i < |q|
    ensures Switch(m, p + q, |p| + i) <==> Switch(m, q, i)
    ensures Switch(m, q, i) ==> SwitchEnd(m, p + q, |p| + i) == |p| + SwitchEnd(m, q, i)
  {
    AtInRight(m.open, p, q, |p| + i);
    if At(q, m.open, i) { FindInRight(p, q, m.close, i + |m.open|); }
  }

  lemma {:induction false} StyleStep(m: Marks, s: string, i: nat)
    requires Sized(m) && i < |s|
    ensures DropStyle(m, s, i)
         == if At(s, m.style, i) then DropStyle(m, s, i + |m.style|) else [s[i]] + DropStyle(m, s, i + 1)
  {}

  lemma {:induction false} StyleStepRight(m: Marks, p: string, q: string, i: nat)
    requires Sized(m) && i < |q|
    ensures DropStyle(m, p + q, |p| + i)
         == if At(q, m.style, i) then DropStyle(m, p + q, |p| + (i + |m.style|))
            else [q[i]] + DropStyle(m, p + q, |p| + (i + 1))
  {
    StyleStep(m, p + q, |p| + i);
    AtInRight(m.style, p, q, |p| + i);
    assert (p + q)[|p| + i] == q[i];
  }

  lemma {:induction false} StyleInRight(m: Marks, p: string, q: string, i: nat)
    requires Sized(m) && i <= |q|
    ensures DropStyle(m, p + q, |p| + i) == DropStyle(m, q, i)
    decreases |q| - i
  {
    if i == |q| {
    } else {
      StyleStepRight(m, p, q, i);
      StyleStep(m, q, i);
      StyleInRight(m, p, q, if At(q, m.style, i) then i + |m.style| else i + 1);
    }
  }

  // ---------- a switch laid between two texts ----------

  // The style and the switch as one run lays them.
  function Laid(m: Marks, mid: string): string { m.style + (m.open + mid + m.close) }

  // The first end after the place a text begins is the switch's own.
  lemma {:induction false} EndOfLaid(m: Marks, mid: string, b: string)
    requires GoodMarks(m) && '<' !in mid
    ensures Find(Laid(m, mid) + b, m.close, 0) == |m.style| + |m.open| + |mid|
  {
    var q, n := Laid(m, mid) + b, |m.style| + |m.open| + |mid|;
    var link := m.open + mid + m.close + b;
    assert q == m.style + link;
    FirstEnd(m, m.open, mid, b);
    AtInRight(m.close, m.style, link, n);
    forall j | 0 <= j < n ensures !At(q, m.close, j) {
      if j < |m.style| {
        if At(q, m.close, j) {
          TagDoesNotStraddle(m.close, m.style, link, j);
          AtIsOccurrence(m.style, m.close, j);
        }
      } else {
        AtInRight(m.close, m.style, link, j);
        NoEndInOpen(m, mid, b, j - |m.style|);
      }
    }
  }

  lemma {:induction false} NoEndInOpen(m: Marks, mid: string, b: string, j: nat)
    requires GoodMarks(m) && '<' !in mid && j < |m.open| + |mid|
    ensures !At(m.open + mid + m.close + b, m.close, j)
  {
    var link := m.open + mid + m.close + b;
    if j == 0 {
      assert link[1] == m.open[1];
    } else if j < |m.open| {
      assert link[j] == m.open[j];
    } else {
      assert link[j] == mid[j - |m.open|];
    }
  }

  // From the style on, the switch alone is dropped.
  lemma {:induction false} LaidIsDropped(m: Marks, mid: string, b: string)
    requires GoodMarks(m) && '<' !in mid
    ensures DropSwitches(m, Laid(m, mid) + b, 0) == m.style + DropSwitches(m, b, 0)
  {
    var link := m.open + mid + m.close + b;
    assert Laid(m, mid) + b == m.style + link;
    forall i: nat ensures !At(m.style, m.open, i) {
      if At(m.style, m.open, i) { AtIsOccurrence(m.style, m.open, i); }
    }
    CopyBefore(m, m.style, link);
    SwitchesInRight(m, m.style, link, 0);
    LinkIsDropped(m, mid, b);
  }

  lemma {:induction false} LinkIsDropped(m: Marks, mid: string, b: string)
    requires GoodMarks(m) && '<' !in mid
    ensures DropSwitches(m, m.open + mid + m.close + b, 0) == DropSwitches(m, b, 0)
  {
    var link := m.open + mid + m.close;
    LinkIsSwitch(m, mid, b);
    SwitchesInRight(m, link, b, 0);
  }

  lemma {:induction false} LinkIsSwitch(m: Marks, mid: string, b: string)
    requires GoodMarks(m) && '<' !in mid
    ensures var link := m.open + mid + m.close; Switch(m, link + b, 0) && SwitchEnd(m, link + b, 0) == |link|
  {
    FirstEnd(m, m.open, mid, b);
    assert At(m.open + mid + m.close + b, m.open, 0);
  }

  // What is used of a laid switch l before b: it starts a tag, its end is the first, and from it on it alone goes.
  ghost predicate StandsBefore(m: Marks, l: string, b: string)
    requires Sized(m)
  {
    && |l| >= |m.close| && l[0] == '<' && Find(l + b, m.close, 0) == |l| - |m.close|
    && DropSwitches(m, l + b, 0) == m.style + DropSwitches(m, b, 0)
  }

  lemma {:induction false} LaidStands(m: Marks, mid: string, b: string)
    requires GoodMarks(m) && '<' !in mid
    ensures StandsBefore(m, Laid(m, mid), b)
  {
    EndOfLaid(m, mid, b);
    LaidIsDropped(m, mid, b);
  }

  // The end that closes a marker before a laid switch: one before it too, or the switch's own.
  lemma {:induction false} EndBeforeLaid(m: Marks, a: string, l: string, b: string, i: nat)
    requires GoodMarks(m) && StandsBefore(m, l, b) && i <= |a|
    ensures Find(a + (l + b), m.close, i)
         == if Find(a, m.close, i) < |a| then Find(a, m.close, i) else |a| + (|l| - |m.close|)
    decreases |a| - i
  {
    var q := l + b;
    if i == |a| {
      FindInRight(a, q, m.close, 0);
    } else {
      if At(a + q, m.close, i) { TagDoesNotStraddle(m.close, a, q, i); }
      if At(a, m.close, i) { AtInLeft(m.close, a, q, i); }
      EndBeforeLaid(m, a, l, b, i + 1);
    }
  }

  // A marker before a laid switch starts a switch that ends before it, or that ends with it.
  lemma {:induction false} MarkerBeforeLaid(m: Marks, a: string, l: string, b: string, i: nat)
    requires GoodMarks(m) && StandsBefore(m, l, b) && i < |a| && At(a + (l + b), m.open, i)
    ensures At(a, m.open, i) && i + 2 <= |a| && Switch(m, a + (l + b), i)
    ensures SwitchEnd(m, a + (l + b), i) == if Switch(m, a, i) then SwitchEnd(m, a, i) else |a| + |l|
  {
    TagDoesNotStraddle(m.open, a, l + b, i);
    EndBeforeLaid(m, a, l, b, i + |m.open|);
  }

  lemma {:induction false} AfterLaid(m: Marks, a: string, l: string, b: string)
    requires Sized(m)
    ensures DropSwitches(m, a + (l + b), |a| + |l|) == DropSwitches(m, b, 0)
  {
    SwitchesInRight(m, a, l + b, |l|);
    SwitchesInRight(m, l, b, 0);
  }

  // What dropping the switches leaves of a text with a switch laid in it: what it leaves before and after, around the
  // style; or, when a marker before takes the style with it, less than the text had.
  lemma {:induction false} LaidLeaves(m: Marks, a: string, l: string, b: string, i: nat)
    returns (kept: bool, x: string)
    requires GoodMarks(m) && StandsBefore(m, l, b) && i <= |a|
    ensures kept ==> DropSwitches(m, a + (l + b), i) == x + (m.style + DropSwitches(m, b, 0))
    ensures kept && NoneFrom(a, m.open, i) ==> x == Cut(a, i, |a|)
    ensures kept && !NoneFrom(a, m.open, i) ==> |x| + |DropSwitches(m, b, 0)| + 2 <= |a| - i + |b|
    ensures !kept ==> !NoneFrom(a, m.open, i) && |DropSwitches(m, a + (l + b), i)| + 2 <= |a| - i + |b|
    decreases |a| - i
  {
    var q := l + b;
    if i == |a| {
      kept, x := true, [];
      SwitchesInRight(m, a, q, 0);
    } else if At(a + q, m.open, i) {
      MarkerBeforeLaid(m, a, l, b, i);
      SwitchesShorten(m, b, 0);
      if Switch(m, a, i) {
        SwitchIsClosed(m, a, i);
        kept, x := LaidLeaves(m, a, l, b, SwitchEnd(m, a, i));
      } else {
        kept, x := false, [];
        AfterLaid(m, a, l, b);
      }
    } else {
      if At(a, m.open, i) { AtInLeft(m.open, a, q, i); }
      kept, x := LaidLeaves(m, a, l, b, i + 1);
      CutFirst(a, i);
      OneLeft(m, a, q, i);
      if kept {
        Associate([a[i]], x, m.style + DropSwitches(m, b, 0));
        x := [a[i]] + x;
      }
    }
  }

  lemma {:induction false} OneLeft(m: Marks, a: string, q: string, i: nat)
    requires Sized(m) && i < |a| && !At(a + q, m.open, i)
    ensures DropSwitches(m, a + q, i) == [a[i]] + DropSwitches(m, a + q, i + 1)
  {}

  // What stands before a text in which no style begins that ends in it is read by itself.
  lemma {:induction false} StyleInLeft(m: Marks, a: string, q: string, i: nat)
    requires Sized(m) && i <= |a| && forall j: nat :: j < |a| && At(a + q, m.style, j) ==> At(a, m.style, j)
    ensures DropStyle(m, a + q, i) == DropStyle(m, a, i) + DropStyle(m, q, 0)
    decreases |a| - i
  {
    if i == |a| {
      StyleInRight(m, a, q, 0);
    } else {
      StyleStep(m, a + q, i);
      StyleStep(m, a, i);
      if At(a, m.style, i) {
        AtInLeft(m.style, a, q, i);
        StyleInLeft(m, a, q, i + |m.style|);
      } else {
        StyleInLeft(m, a, q, i + 1);
        Associate([a[i]], DropStyle(m, a, i + 1), DropStyle(m, q, 0));
      }
    }
  }

  // Dropping the style of a text around one style drops it on both sides and that one.
  lemma {:induction false} StyleAround(m: Marks, a: string, b: string)
    requires GoodMarks(m)
    ensures DropStyle(m, a + (m.style + b), 0) == DropStyle(m, a, 0) + DropStyle(m, b, 0)
  {
    forall j: nat | j < |a| && At(a + (m.style + b), m.style, j) ensures At(a, m.style, j) {
      StyleBefore(m, a, b, j);
    }
    StyleInLeft(m, a, m.style + b, 0);
    StyleGoes(m, b);
  }

  lemma {:induction false} StyleGoes(m: Marks, b: string)
    requires Sized(m)
    ensures DropStyle(m, m.style + b, 0) == DropStyle(m, b, 0)
  {
    assert At(m.style + b, m.style, 0);
    StyleInRight(m, m.style, b, 0);
  }

  // No style starts before another and ends in it.
  lemma {:induction false} StyleBefore(m: Marks, a: string, b: string, i: nat)
    requires GoodMarks(m) && i < |a| && At(a + (m.style + b), m.style, i)
    ensures i + |m.style| <= |a| && At(a, m.style, i)
  {
    Associate(a, m.style, b);
    if i + |m.style| > |a| {
      StraddleIsBorder(m.style, a, b, i);
    } else {
      forall k | 0 <= k < |m.style| ensures a[i + k] == m.style[k] {
        assert (a + (m.style + b))[i + k] == a[i + k];
      }
    }
  }

  // Stripping a page with a switch laid in it gives the page back exactly when it is settled there; else at least two
  // characters of the page itself go.
  lemma {:induction false} StripOfLaid(m: Marks, a: string, l: string, b: string)
    requires GoodMarks(m) && StandsBefore(m, l, b)
    ensures Settled(m, a, b) ==> Strip(m, a + (l + b)) == a + b
    ensures !Settled(m, a, b) ==> |Strip(m, a + (l + b))| + 2 <= |a| + |b|
  {
    var kept, x := LaidLeaves(m, a, l, b, 0);
    var rest := DropSwitches(m, b, 0);
    SwitchesShorten(m, b, 0);
    WholeCut(a);
    WholeCut(b);
    if kept {
      StyleAround(m, x, rest);
      StyleShortens(m, x, 0);
      StyleShortens(m, rest, 0);
      WholeCut(x);
      WholeCut(rest);
    } else {
      StyleShortens(m, DropSwitches(m, a + (l + b), 0), 0);
      WholeCut(DropSwitches(m, a + (l + b), 0));
    }
  }

  lemma WholeCut(s: string)
    ensures Cut(s, 0, |s|) == s
  {}
}
