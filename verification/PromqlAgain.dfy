/** Running a pass on its own output: the second run changes nothing. */
module PromqlAgain {
  import opened PromqlText
  import opened PromqlRewrite

  // ------------------------------------------------------------------ aliases

  /** `pre` has been written for `s[..c]`, and both end at the same kind of edge. */
  predicate SameEdge(pre: string, s: string, c: nat)
    requires c <= |s|
  {
    (c == 0 <==> pre == []) && (c > 0 && pre != [] ==> (MetricRest(pre[|pre| - 1]) <==> MetricRest(s[c - 1])))
  }

  /** A character that neither opens a literal nor starts the new name. */
  predicate Inert(x: char) { !Quote(x) && x != 'd' }

  /** What the pass writes starts with an inert character only where the text does. */
  lemma InertStart(s: string, c: nat)
    requires c <= |s| && Aliased(s, c) != [] && Inert(Aliased(s, c)[0])
    ensures c < |s| && s[c] == Aliased(s, c)[0] && Aliased(s, c) == [s[c]] + Aliased(s, c + 1)
  {
    hide CopyBody, AliasAt, Smoothing;
  }

  /** An inert prefix of what the pass writes is a prefix of the text. */
  lemma {:induction false} InertPrefix(s: string, c: nat, w: string)
    requires c <= |s| && w <= Aliased(s, c) && forall i :: 0 <= i < |w| ==> Inert(w[i])
    ensures w <= s[c..] && c + |w| <= |s|
    decreases |w|
  {
    hide Aliased;
    if w != [] {
      InertStart(s, c);
      InertPrefix(s, c + 1, w[1..]);
      assert s[c..] == [s[c]] + s[c + 1..];
    }
  }

  lemma OldNameInert()
    ensures forall i :: 0 <= i < 12 ==> Inert(HoltWinters()[i])
  {
  }

  /** From the old name to the opening parenthesis of its call. */
  lemma CallText(s: string, c: nat)
    requires AliasAt(s, c)
    ensures var k := SkipSpace(s, c + 12);
            k < |s| && s[k] == '(' && forall i :: c <= i <= k ==> Inert(s[i])
  {
    hide HoltWinters, SkipSpace;
    OldNameInert();
    SpacesOnly(s, c + 12);
    var k := SkipSpace(s, c + 12);
    forall i | c <= i <= k ensures Inert(s[i]) {
      if i < c + 12 { assert s[i] == s[c..c + 12][i - c]; }
    }
  }

  lemma {:induction false} SpacesOnly(s: string, c: nat)
    requires c <= |s|
    ensures forall i :: c <= i < SkipSpace(s, c) ==> Whitespace(s[i])
    decreases |s| - c
  {
    if c < |s| && Whitespace(s[c]) { SpacesOnly(s, c + 1); }
  }

  /** Skipping space depends only on the text up to the character that stops it. */
  lemma {:induction false} SameSpaces(s: string, c: nat, o: string, d: nat)
    requires c <= |s| && d <= |o| && SkipSpace(o, d) < |o| && o[d..SkipSpace(o, d) + 1] <= s[c..]
    ensures SkipSpace(s, c) == c + SkipSpace(o, d) - d
    decreases |o| - d
  {
    var k := SkipSpace(o, d);
    assert s[c] == o[d..k + 1][0] == o[d];
    if Whitespace(o[d]) {
      assert o[d + 1..k + 1] == o[d..k + 1][1..] && s[c + 1..] == s[c..][1..];
      SameSpaces(s, c + 1, o, d + 1);
    }
  }

  /** An old name called in the output was called in the text. */
  lemma CallComesFromText(s: string, c: nat, pre: string)
    requires c <= |s| && SameEdge(pre, s, c) && AliasAt(pre + Aliased(s, c), |pre|)
    ensures AliasAt(s, c)
  {
    hide Aliased, HoltWinters, SkipSpace, Inert;
    var o, d := pre + Aliased(s, c), |pre|;
    CallText(o, d);
    var k := SkipSpace(o, d + 12);
    var w := o[d..k + 1];
    assert w <= Aliased(s, c);
    InertPrefix(s, c, w);
    assert s[c..c + 12] == w[..12] == o[d..d + 12];
    assert o[d + 12..k + 1] == w[12..] && s[c + 12..] == s[c..][12..];
    SameSpaces(s, c + 12, o, d + 12);
    assert s[k - d + c] == w[k - d];
  }

  /** The new name has only label characters and is nowhere the old one. */
  lemma NewNameQuiet(o: string, d: nat, i: nat)
    requires d + 28 <= |o| && o[d..d + 28] == Smoothing() && i <= 28 && AliasQuiet(o, d + 28)
    ensures AliasQuiet(o, d + i)
    decreases 28 - i
  {
    hide AliasQuiet, AliasAt, Smoothing;
    if i < 28 {
      NewNameQuiet(o, d, i + 1);
      NewNameChars();
      assert o[d + i] == Smoothing()[i];
      if i > 0 { assert o[d + i - 1] == Smoothing()[i - 1]; }
      NotOldName(o, d + i);
      PlainTurn(o, d + i);
    }
  }

  lemma NewNameChars()
    ensures Smoothing()[0] == 'd' && forall i :: 0 <= i < 28 ==> LabelRest(Smoothing()[i])
  {
  }

  lemma NotOldName(o: string, k: nat)
    requires k < |o| && (o[k] != 'h' || (k > 0 && MetricRest(o[k - 1])))
    ensures !AliasAt(o, k)
  {
    hide HoltWinters, SkipSpace;
    if AliasAt(o, k) { AliasFits(o, k); }
  }

  /** A turn of the alias pass that copies one character. */
  lemma PlainTurn(o: string, k: nat)
    requires k < |o| && !Quote(o[k]) && !AliasAt(o, k)
    ensures AliasQuiet(o, k) == AliasQuiet(o, k + 1)
  {
    hide AliasAt, CopyBody;
  }

  /** A turn of the alias pass on a literal that it has written. */
  lemma LiteralTurn(o: string, k: nat, q: char, body: string, t: string)
    requires k < |o| && Quote(q) && (Closed(q, body) || t == []) && o[k..] == [q] + CopyBody(q, body).0 + t
    ensures k + 1 + |CopyBody(q, body).0| <= |o|
    ensures AliasQuiet(o, k) == AliasQuiet(o, k + 1 + |CopyBody(q, body).0|)
  {
    hide AliasAt, CopyBody, Closed, QuietBody;
    var w := CopyBody(q, body).0;
    WrittenAgain(o, k, q, body, t);
  }

  /** A written literal, seen by a second pass: standard, and consumed exactly. */
  lemma WrittenAgain(o: string, k: nat, q: char, body: string, t: string)
    requires k < |o| && Quote(q) && (Closed(q, body) || t == []) && o[k..] == [q] + CopyBody(q, body).0 + t
    ensures var w := CopyBody(q, body).0;
            o[k] == q && QuietBody(q, o[k + 1..]) && CopyBody(q, o[k + 1..]) == (w, |w|) && k + 1 + |w| <= |o| && o[k + 1 + |w|..] == t
  {
    hide CopyBody, Closed, QuietBody;
    var w := CopyBody(q, body).0;
    CopyAgain(q, body, t);
    WrittenIsQuiet(q, body, t);
    assert o[k] == o[k..][0] && o[k + 1..] == o[k..][1..] == w + t;
    assert o[k + 1 + |w|..] == o[k + 1..][|w|..];
  }

  lemma {:induction false} ClosedEnds(q: char, s: string)
    requires Quote(q) && Closed(q, s)
    ensures var (w, n) := CopyBody(q, s); w != [] && n > 0 && w[|w| - 1] == q && s[n - 1] == q
    decreases |s|
  {
    hide CopyBody, Closed, Escaped;
    BodyTurn(q, s);
    if q != '`' && s[0] == '\\' { ClosedEnds(q, s[2..]); } else if s[0] != q { ClosedEnds(q, s[1..]); }
  }

  /** Nothing that the alias pass writes calls for another alias pass. */
  lemma {:induction false} AliasedIsQuiet(s: string, c: nat, pre: string)
    requires c <= |s| && (c == |s| || SameEdge(pre, s, c))
    ensures AliasQuiet(pre + Aliased(s, c), |pre|)
    decreases |s| - c
  {
    hide AliasQuiet, AliasAt, CopyBody, Closed, Smoothing, SameEdge, AliasPiece;
    if c == |s| {
      EndQuiet(pre + Aliased(s, c), |pre|);
    } else {
      var (w, n) := AliasPiece(s, c);
      var more := pre + w;
      assert pre + Aliased(s, c) == more + Aliased(s, n);
      EdgeKept(s, c, pre);
      AliasedIsQuiet(s, n, more);
      PieceIsQuiet(s, c, pre);
    }
  }

  lemma EndQuiet(o: string, k: nat)
    requires k == |o|
    ensures AliasQuiet(o, k)
  {
  }

  lemma EdgeKept(s: string, c: nat, pre: string)
    requires c < |s| && SameEdge(pre, s, c)
    ensures var (w, n) := AliasPiece(s, c); n == |s| || SameEdge(pre + w, s, n)
  {
    hide AliasAt, CopyBody, Closed, Smoothing, HoltWinters;
    var (w, n) := AliasPiece(s, c);
    if Quote(s[c]) {
      if Closed(s[c], s[c + 1..]) { ClosedEnds(s[c], s[c + 1..]); } else { OpenTakesAll(s[c], s[c + 1..]); }
    } else if AliasAt(s, c) {
      NamesEnd(s, c);
    }
  }

  lemma NamesEnd(s: string, c: nat)
    requires AliasAt(s, c)
    ensures c + 12 <= |s| && MetricRest(s[c + 11]) && MetricRest(Smoothing()[27])
  {
    hide SkipSpace;
    assert s[c + 11] == s[c..c + 12][11];
  }

  lemma PieceIsQuiet(s: string, c: nat, pre: string)
    requires c < |s| && SameEdge(pre, s, c)
    requires var (w, n) := AliasPiece(s, c); AliasQuiet(pre + Aliased(s, c), |pre| + |w|)
    ensures AliasQuiet(pre + Aliased(s, c), |pre|)
  {
    hide AliasQuiet, AliasAt, CopyBody, Closed, Smoothing, SameEdge;
    var (w, n) := AliasPiece(s, c);
    var o, d := pre + Aliased(s, c), |pre|;
    assert o[d..] == w + Aliased(s, n);
    if Quote(s[c]) {
      if !Closed(s[c], s[c + 1..]) { OpenTakesAll(s[c], s[c + 1..]); }
      LiteralTurn(o, d, s[c], s[c + 1..], Aliased(s, n));
    } else if AliasAt(s, c) {
      assert o[d..d + 28] == o[d..][..28];
      NewNameQuiet(o, d, 0);
    } else {
      assert o[d] == o[d..][0];
      if AliasAt(o, d) { CallComesFromText(s, c, pre); }
      PlainTurn(o, d);
    }
  }

  /** The alias pass is idempotent, on every text. */
  lemma AliasTwice(s: string)
    ensures Aliased(Aliased(s, 0), 0) == Aliased(s, 0)
  {
    hide Aliased, AliasQuiet;
    AliasedIsQuiet(s, 0, "");
    var o := Aliased(s, 0);
    assert "" + o == o && o[0..] == o;
    AliasKept(o, 0);
  }
}
