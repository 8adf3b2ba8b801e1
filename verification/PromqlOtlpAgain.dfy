/** The OTLP pass on its own output: the second run changes nothing. */
module PromqlOtlpAgain {
  import opened PromqlText
  import opened PromqlRewrite
  import opened PromqlAgain

  /** `o` goes on at `d` with `w`, then `t`. */
  predicate GoesOn(o: string, d: nat, w: string, t: string) { d <= |o| && o[d..] == w + t }

  lemma Behind(o: string, d: nat, w: string, t: string)
    requires GoesOn(o, d, w, t)
    ensures |o| == d + |w| + |t| && o[d..d + |w|] == w && o[d + |w|..] == t
    ensures forall i :: 0 <= i < |w| ==> o[d + i] == w[i]
  {
    assert o[d..d + |w|] == o[d..][..|w|] && o[d + |w|..] == o[d..][|w|..];
    forall i | 0 <= i < |w| ensures o[d + i] == w[i] { assert o[d + i] == o[d..][i]; }
  }

  /** The same, with the first part cut in two. */
  lemma Split(o: string, d: nat, w: string, v: string, t: string)
    requires GoesOn(o, d, w + v, t)
    ensures GoesOn(o, d, w, v + t) && GoesOn(o, d + |w|, v, t)
  {
    assert w + v + t == w + (v + t);
    Behind(o, d, w, v + t);
  }

  // -------------------------------------------------------------------- words

  /** A character that may continue a name. */
  predicate SpanChar(x: char, metric: bool) { LabelRest(x) || x == '.' || (metric && x == ':') }

  predicate Word(w: string, metric: bool) { forall i :: 0 <= i < |w| ==> SpanChar(w[i], metric) }

  predicate Stops(t: string, metric: bool) { t == [] || !SpanChar(t[0], metric) }

  lemma {:induction false} SpanIsWord(s: string, c: nat, metric: bool)
    requires c <= |s|
    ensures var e := SpanEnd(s, c, metric); Word(s[c..e], metric) && Stops(s[e..], metric)
    decreases |s| - c
  {
    var e := SpanEnd(s, c, metric);
    if c < |s| && SpanChar(s[c], metric) {
      SpanIsWord(s, c + 1, metric);
      assert s[c..e] == [s[c]] + s[c + 1..e];
    }
  }

  lemma {:induction false} WordIsSpan(o: string, d: nat, w: string, t: string, metric: bool)
    requires GoesOn(o, d, w, t) && Word(w, metric) && Stops(t, metric)
    ensures SpanEnd(o, d, metric) == d + |w|
    decreases |w|
  {
    Behind(o, d, w, t);
    if w != [] {
      assert o[d + 0] == w[0];
      assert o[d + 1..] == o[d..][1..] == w[1..] + t;
      WordIsSpan(o, d + 1, w[1..], t, metric);
    } else if t != [] {
      assert o[d] == o[d..][0];
    }
  }

  /** A name read again is the same name. */
  lemma NameAgain(o: string, d: nat, w: string, t: string, metric: bool)
    requires GoesOn(o, d, w, t) && w != [] && Word(w[1..], metric) && Stops(t, metric)
    ensures d + |w| <= |o| && o[d] == w[0] && SpanEnd(o, d + 1, metric) == d + |w| && o[d..d + |w|] == w
  {
    hide GoesOn, Word, Stops;
    Behind(o, d, w, t);
    assert o[d + 0] == w[0];
    OneFurther(o, d, w, t);
    WordIsSpan(o, d + 1, w[1..], t, metric);
  }

  lemma OneFurther(o: string, d: nat, w: string, t: string)
    requires GoesOn(o, d, w, t) && w != []
    ensures GoesOn(o, d + 1, w[1..], t)
  {
    assert o[d + 1..] == o[d..][1..];
  }

  // -------------------------------------------------------------- quoted names

  /** A name needs no escapes between quotes. */
  lemma {:induction false} QuotedName(v: string)
    requires Word(v, true)
    ensures QuotedChars(v) == v
  {
    if v != [] { QuotedName(v[1..]); }
  }

  lemma {:induction false} NameBody(v: string)
    requires Word(v, true)
    ensures var body := v + ['"']; CopyBody('"', body) == (body, |body|) && Closed('"', body)
  {
    hide CopyBody, Closed, Escaped;
    var body := v + ['"'];
    BodyTurn('"', body);
    if v == [] {
      assert body == ['"'];
    } else {
      NameBody(v[1..]);
      assert body[1..] == v[1..] + ['"'];
      assert body == [v[0]] + body[1..];
    }
  }

  /** A quoted name is a literal that a second pass copies as it is. */
  lemma QuotedAgain(o: string, d: nat, v: string, t: string)
    requires Word(v, true) && GoesOn(o, d, Quoted(v), t)
    ensures d < |o| && o[d] == '"' && QuietBody('"', o[d + 1..]) && CopyBody('"', o[d + 1..]).1 == |v| + 1 && |Quoted(v)| == |v| + 2
  {
    hide CopyBody, Closed, QuietBody, Word, QuotedChars;
    QuotedName(v);
    NameBody(v);
    var body := v + ['"'];
    assert Quoted(v) == ['"'] + body;
    assert Quoted(v) + t == ['"'] + body + t;
    assert |o[d..]| > 0;
    WrittenAgain(o, d, '"', body, t);
  }

  // ----------------------------------------------------------------- matchers

  /** The closing brace is there. */
  predicate MatchersClosed(s: string, c: nat)
    requires c <= |s|
    decreases |s| - c
  {
    c < |s| && (s[c] == '}' || MatchersClosed(s, MatcherPiece(s, c).1))
  }

  lemma {:induction false} OpenMatchersEnd(s: string, c: nat)
    requires c <= |s| && !MatchersClosed(s, c)
    ensures Matchers(s, c).1 == |s|
    decreases |s| - c
  {
    hide MatcherPiece;
    if c < |s| { OpenMatchersEnd(s, MatcherPiece(s, c).1); }
  }

  /** What is written starts like the text, except that a name may become quoted. */
  lemma MatchersStart(s: string, c: nat)
    requires c < |s|
    ensures var w := Matchers(s, c).0; w != [] && (w[0] == s[c] || (w[0] == '"' && LabelFirst(s[c])))
  {
    hide CopyBody, MatcherEvent, QuotedChars;
  }

  /** One character that is copied. */
  lemma MatchersPlain(s: string, c: nat)
    requires c < |s| && !Quote(s[c]) && s[c] != '}' && !LabelFirst(s[c])
    ensures Matchers(s, c) == ([s[c]] + Matchers(s, c + 1).0, Matchers(s, c + 1).1)
    ensures MatchersClosed(s, c) == MatchersClosed(s, c + 1)
  {
  }

  lemma SpaceIsPlain(x: char)
    requires Whitespace(x) || x == '!' || x == '='
    ensures !Quote(x) && x != '}' && x != '{' && !MetricFirst(x) && x != '('
  {
  }

  /** An operator after spaces in the output was there in the text. */
  lemma {:induction false} OperatorComes(s: string, c: nat, o: string, d: nat, t: string)
    requires c <= |s| && GoesOn(o, d, Matchers(s, c).0, t) && (MatchersClosed(s, c) || t == [])
    requires OperatorAt(o, SkipSpace(o, d))
    ensures OperatorAt(s, SkipSpace(s, c))
    decreases |s| - c
  {
    hide Matchers, MatchersClosed, GoesOn, Whitespace;
    Behind(o, d, Matchers(s, c).0, t);
    NothingLeft(s, c);
    if c < |s| {
      MatchersStart(s, c);
      var w := Matchers(s, c).0;
      assert o[d + 0] == w[0];
      SpaceIsPlain('=');
      if Whitespace(s[c]) {
        SpaceIsPlain(s[c]);
        MatchersPlain(s, c);
        OneFurther(o, d, w, t);
        assert w[1..] == Matchers(s, c + 1).0;
        OperatorComes(s, c + 1, o, d + 1, t);
      } else {
        QuoteIsNoSpace();
        if s[c] == '!' { BangComes(s, c, o, d, t); }
      }
    }
  }

  lemma QuoteIsNoSpace()
    ensures !Whitespace('"') && !Whitespace('{') && !Whitespace('(')
  {
  }

  lemma NothingLeft(s: string, c: nat)
    requires c <= |s|
    ensures c == |s| ==> Matchers(s, c).0 == [] && !MatchersClosed(s, c)
  {
  }

  lemma BangComes(s: string, c: nat, o: string, d: nat, t: string)
    requires c < |s| && s[c] == '!' && GoesOn(o, d, Matchers(s, c).0, t) && (MatchersClosed(s, c) || t == []) && OperatorAt(o, d)
    ensures OperatorAt(s, c)
  {
    hide Matchers, MatchersClosed, GoesOn;
    SpaceIsPlain('!');
    MatchersPlain(s, c);
    NothingLeft(s, c + 1);
    var w := Matchers(s, c).0;
    Behind(o, d, w, t);
    assert o[d + 0] == w[0];
    if c + 1 < |s| {
      MatchersStart(s, c + 1);
      assert o[d + 1] == w[1] == Matchers(s, c + 1).0[0];
    }
  }

  /** Turns inside braces, and what a second run makes of them. */
  ghost predicate MatcherTurn(o: string, d: nat, w: string) {
    d < |o| && o[d] != '}' && MatcherPieceQuiet(o, d) && MatcherPiece(o, d).1 == d + |w|
  }

  lemma MatcherLiteralAgain(o: string, d: nat, q: char, body: string, t: string)
    requires Quote(q) && (Closed(q, body) || t == []) && GoesOn(o, d, [q] + CopyBody(q, body).0, t)
    ensures MatcherTurn(o, d, [q] + CopyBody(q, body).0)
  {
    hide CopyBody, Closed, QuietBody, MatcherEvent;
    assert |o[d..]| > 0;
    WrittenAgain(o, d, q, body, t);
  }

  lemma MatcherQuotedAgain(o: string, d: nat, v: string, t: string)
    requires Word(v, true) && GoesOn(o, d, Quoted(v), t)
    ensures MatcherTurn(o, d, Quoted(v))
  {
    hide CopyBody, QuietBody, MatcherEvent, Quoted, Word, GoesOn;
    QuotedAgain(o, d, v, t);
  }

  lemma LabelIsNoQuote(x: char)
    requires LabelFirst(x)
    ensures !Quote(x) && x != '}' && x != '{' && x != ')' && MetricFirst(x) && SpanChar(x, false)
  {
  }

  /** A name that stays as it is. */
  lemma MatcherNameAgain(s: string, c: nat, o: string, d: nat, t: string)
    requires c < |s| && LabelFirst(s[c])
    requires var e := SpanEnd(s, c + 1, false);
             && !MatcherEvent(s, c, e) && GoesOn(o, d, s[c..e], Matchers(s, e).0 + t) && (MatchersClosed(s, e) || t == [])
    ensures MatcherTurn(o, d, s[c..SpanEnd(s, c + 1, false)])
  {
    hide CopyBody, QuietBody, Matchers, MatchersClosed, GoesOn, Word, Stops, LabelFirst, MatcherEvent, Quote;
    var e := SpanEnd(s, c + 1, false);
    var w, more := s[c..e], Matchers(s, e).0 + t;
    NameTail(s, c, false);
    MatchersStop(s, e, t);
    NameAgain(o, d, w, more, false);
    LabelIsNoQuote(s[c]);
    EventComes(s, c, e, o, d, t);
  }

  lemma NameTail(s: string, c: nat, metric: bool)
    requires c < |s|
    ensures var e := SpanEnd(s, c + 1, metric); s[c..e] != [] && Word(s[c..e][1..], metric) && Stops(s[e..], metric)
  {
    hide Word, Stops;
    var e := SpanEnd(s, c + 1, metric);
    SpanIsWord(s, c + 1, metric);
    assert s[c..e][1..] == s[c + 1..e];
  }

  /** A name before an operator in the output was before one in the text. */
  lemma EventComes(s: string, c: nat, e: nat, o: string, d: nat, t: string)
    requires c <= e <= |s| && GoesOn(o, d, s[c..e], Matchers(s, e).0 + t) && (MatchersClosed(s, e) || t == [])
    ensures d + e - c <= |o| && (MatcherEvent(o, d, d + e - c) ==> MatcherEvent(s, c, e))
  {
    hide Matchers, MatchersClosed, GoesOn, OperatorAt, SkipSpace;
    Behind(o, d, s[c..e], Matchers(s, e).0 + t);
    AtBehind(o, d + e - c, Matchers(s, e).0, t);
    if MatcherEvent(o, d, d + e - c) { OperatorComes(s, e, o, d + e - c, t); }
  }

  lemma AtBehind(o: string, d: nat, w: string, t: string)
    requires d <= |o| && o[d..] == w + t
    ensures GoesOn(o, d, w, t)
  {
  }

  /** After a name the output goes on with the character after it in the text. */
  lemma MatchersStop(s: string, e: nat, t: string)
    requires e <= |s| && Stops(s[e..], false) && (MatchersClosed(s, e) || t == [])
    ensures Stops(Matchers(s, e).0 + t, false)
  {
    hide Matchers, MatchersClosed, LabelFirst;
    NothingLeft(s, e);
    if e < |s| {
      MatchersStart(s, e);
      if LabelFirst(s[e]) { LabelIsNoQuote(s[e]); }
      assert s[e] == s[e..][0];
    }
  }

  lemma MatcherPlainAgain(o: string, d: nat, x: char, t: string)
    requires GoesOn(o, d, [x], t) && !Quote(x) && x != '}' && !LabelFirst(x)
    ensures MatcherTurn(o, d, [x])
  {
    hide GoesOn, Quote, LabelFirst, QuietBody, CopyBody, MatcherEvent;
    Behind(o, d, [x], t);
    assert o[d + 0] == [x][0];
  }

  /** One turn inside braces writes what a second run leaves alone. */
  lemma MatcherPieceAgain(s: string, c: nat, o: string, d: nat, t: string)
    requires c < |s| && s[c] != '}'
    requires var (w, n) := MatcherPiece(s, c); GoesOn(o, d, w, Matchers(s, n).0 + t) && (MatchersClosed(s, n) || t == [])
    ensures MatcherTurn(o, d, MatcherPiece(s, c).0)
  {
    hide CopyBody, Closed, Matchers, MatchersClosed, GoesOn, Quoted, MatcherEvent, MatcherTurn, Quote, LabelFirst;
    var (w, n) := MatcherPiece(s, c);
    var more := Matchers(s, n).0 + t;
    if Quote(s[c]) {
      NothingLeft(s, n);
      if !Closed(s[c], s[c + 1..]) { OpenTakesAll(s[c], s[c + 1..]); }
      MatcherLiteralAgain(o, d, s[c], s[c + 1..], more);
    } else if LabelFirst(s[c]) {
      if MatcherEvent(s, c, n) {
        NameIsWord(s, c, false);
        MatcherQuotedAgain(o, d, s[c..n], more);
      } else {
        MatcherNameAgain(s, c, o, d, t);
      }
    } else {
      MatcherPlainAgain(o, d, s[c], more);
    }
  }

  lemma NameIsWord(s: string, c: nat, metric: bool)
    requires c < |s| && (LabelFirst(s[c]) || (metric && MetricFirst(s[c])))
    ensures Word(s[c..SpanEnd(s, c + 1, metric)], true)
  {
    var e := SpanEnd(s, c + 1, metric);
    SpanIsWord(s, c + 1, metric);
    assert s[c..e] == [s[c]] + s[c + 1..e];
  }

  lemma {:induction false} MatchersAgain(s: string, c: nat, o: string, d: nat, t: string)
    requires c <= |s| && GoesOn(o, d, Matchers(s, c).0, t) && (MatchersClosed(s, c) || t == [])
    ensures d + |Matchers(s, c).0| <= |o| && MatchersQuiet(o, d) && Matchers(o, d).1 == d + |Matchers(s, c).0|
    decreases |s| - c
  {
    hide MatcherPiece, MatcherPieceQuiet, GoesOn;
    Behind(o, d, Matchers(s, c).0, t);
    if c < |s| && s[c] != '}' {
      var (w, n) := MatcherPiece(s, c);
      Split(o, d, w, Matchers(s, n).0, t);
      MatcherPieceAgain(s, c, o, d, t);
      MatchersAgain(s, n, o, d + |w|, t);
    } else if c < |s| {
      assert o[d + 0] == '}';
    }
  }

  // ----------------------------------------------------------------- grouping

  predicate LabelText(w: string) { forall i :: 0 <= i < |w| ==> LabelRest(w[i]) }

  predicate IsLabel(w: string) { w != [] && LabelFirst(w[0]) && LabelText(w) }

  /** Fingerprints are made of label characters, such as hexadecimal digits. */
  ghost predicate Fingerprints(hex: string -> string) { forall v :: LabelText(hex(v)) }

  lemma FingerprintsUndotted(hex: string -> string)
    requires Fingerprints(hex)
    ensures Undotted(hex)
  {
    forall v ensures '.' !in hex(v) { assert LabelText(hex(v)); }
  }

  lemma LabelTextJoin(a: string, b: string)
    requires LabelText(a) && LabelText(b)
    ensures LabelText(a + b)
  {
  }

  lemma NormalizedIsLabel(v: string, hex: string -> string)
    requires v != [] && LabelFirst(v[0]) && Fingerprints(hex)
    ensures IsLabel(NormalizeLabel(v, hex))
  {
    hide Fingerprints, LabelText;
    var clean := Allowed(v);
    assert clean[0] == v[0];
    assert LabelText(clean) && LabelText("otel_") && LabelText("_x") by { PlainParts(clean, v); }
    assert LabelText(hex(v)) by { FingerprintOf(hex, v); }
    var plain := if clean == "__name__" || "__" <= clean then "otel_" + clean else clean;
    LabelTextJoin("otel_", clean);
    LabelTextJoin(plain, "_x");
    LabelTextJoin(plain + "_x", hex(v));
  }

  lemma PlainParts(clean: string, v: string)
    requires clean == Allowed(v)
    ensures LabelText(clean) && LabelText("otel_") && LabelText("_x")
  {
  }

  lemma FingerprintOf(hex: string -> string, v: string)
    requires Fingerprints(hex)
    ensures LabelText(hex(v))
  {
  }

  /** What a label of a grouping clause becomes. */
  function GroupWord(v: string, hex: string -> string): string { if '.' in v then NormalizeLabel(v, hex) else v }

  lemma GroupWordIsLabel(s: string, c: nat, hex: string -> string)
    requires c < |s| && LabelFirst(s[c]) && Fingerprints(hex)
    ensures IsLabel(GroupWord(s[c..SpanEnd(s, c + 1, false)], hex))
  {
    hide Fingerprints, NormalizeLabel;
    var v := s[c..SpanEnd(s, c + 1, false)];
    if '.' in v {
      NormalizedIsLabel(v, hex);
    } else {
      NameIsWord(s, c, false);
      SpanIsWord(s, c + 1, false);
      assert v == [s[c]] + s[c + 1..SpanEnd(s, c + 1, false)];
    }
  }

  predicate GroupClosed(s: string, c: nat)
    requires c <= |s|
    decreases |s| - c
  {
    c < |s| && (s[c] == ')' || GroupClosed(s, if LabelFirst(s[c]) then SpanEnd(s, c + 1, false) else c + 1))
  }

  lemma {:induction false} OpenGroupEnds(s: string, c: nat)
    requires c <= |s| && !GroupClosed(s, c)
    ensures GroupEnd(s, c) == |s|
    decreases |s| - c
  {
    if c < |s| { OpenGroupEnds(s, if LabelFirst(s[c]) then SpanEnd(s, c + 1, false) else c + 1); }
  }

  lemma GroupStop(s: string, e: nat, hex: string -> string, t: string)
    requires e <= |s| && Stops(s[e..], false) && (GroupClosed(s, e) || t == [])
    ensures Stops(GroupLabels(s, e, hex).0 + t, false)
  {
    hide NormalizeLabel;
    if e < |s| { assert s[e] == s[e..][0]; }
  }

  lemma LabelAgain(o: string, d: nat, w: string, t: string)
    requires IsLabel(w) && GoesOn(o, d, w, t) && Stops(t, false)
    ensures d + |w| <= |o| && LabelFirst(o[d]) && SpanEnd(o, d + 1, false) == d + |w| && '.' !in o[d..d + |w|]
  {
    hide GoesOn, Stops;
    NameAgain(o, d, w, t, false);
  }

  function GroupNext(s: string, c: nat): (n: nat)
    requires c < |s|
    ensures c < n <= |s|
  {
    if LabelFirst(s[c]) then SpanEnd(s, c + 1, false) else c + 1
  }

  /** What one turn of a grouping clause writes. */
  function GroupText(s: string, c: nat, hex: string -> string): string
    requires c < |s|
  {
    if LabelFirst(s[c]) then GroupWord(s[c..SpanEnd(s, c + 1, false)], hex) else [s[c]]
  }

  lemma GroupTurn(s: string, c: nat, hex: string -> string)
    requires c < |s|
    ensures s[c] == ')' ==> GroupLabels(s, c, hex).0 == ")"
    ensures s[c] != ')' ==> var n := GroupNext(s, c);
              && GroupLabels(s, c, hex).0 == GroupText(s, c, hex) + GroupLabels(s, n, hex).0
              && GroupClosed(s, c) == GroupClosed(s, n)
  {
    hide NormalizeLabel;
  }

  lemma GroupTurnQuiet(o: string, d: nat)
    requires d < |o| && (o[d] != ')' && LabelFirst(o[d]) ==> '.' !in o[d..GroupNext(o, d)])
    ensures o[d] == ')' ==> GroupQuiet(o, d) && GroupEnd(o, d) == d + 1
    ensures o[d] != ')' ==> GroupQuiet(o, d) == GroupQuiet(o, GroupNext(o, d)) && GroupEnd(o, d) == GroupEnd(o, GroupNext(o, d))
  {
  }

  /** The turn read again: the same extent, and no dot. */
  lemma GroupTextAgain(s: string, c: nat, hex: string -> string, o: string, d: nat, t: string)
    requires c < |s| && s[c] != ')' && Fingerprints(hex)
    requires var n := GroupNext(s, c);
             GoesOn(o, d, GroupText(s, c, hex), GroupLabels(s, n, hex).0 + t) && (GroupClosed(s, n) || t == [])
    ensures var w := GroupText(s, c, hex);
            d < |o| && o[d] != ')' && GroupNext(o, d) == d + |w| && (LabelFirst(o[d]) ==> '.' !in o[d..d + |w|])
  {
    hide GoesOn, GroupLabels, GroupClosed, GroupWord, Fingerprints, IsLabel, Stops, LabelFirst;
    var n, w := GroupNext(s, c), GroupText(s, c, hex);
    var more := GroupLabels(s, n, hex).0 + t;
    Behind(o, d, w, more);
    if LabelFirst(s[c]) {
      GroupWordIsLabel(s, c, hex);
      NameTail(s, c, false);
      GroupStop(s, n, hex, t);
      LabelAgain(o, d, w, more);
      LabelIsNoQuote(o[d]);
    } else {
      assert o[d + 0] == w[0];
    }
  }

  lemma {:induction false} GroupAgain(s: string, c: nat, hex: string -> string, o: string, d: nat, t: string)
    requires c <= |s| && Fingerprints(hex) && GoesOn(o, d, GroupLabels(s, c, hex).0, t) && (GroupClosed(s, c) || t == [])
    ensures d + |GroupLabels(s, c, hex).0| <= |o| && GroupQuiet(o, d) && GroupEnd(o, d) == d + |GroupLabels(s, c, hex).0|
    decreases |s| - c
  {
    hide GoesOn, GroupText, GroupNext, Fingerprints, GroupLabels, GroupClosed, LabelFirst, GroupQuiet, GroupEnd;
    var all := GroupLabels(s, c, hex).0;
    Behind(o, d, all, t);
    if c == |s| {
      GroupAtEnd(s, hex);
      GroupAtEnd(o, hex);
    } else {
      GroupTurn(s, c, hex);
      if s[c] == ')' {
        assert o[d + 0] == all[0];
      } else {
        var n, w := GroupNext(s, c), GroupText(s, c, hex);
        Split(o, d, w, GroupLabels(s, n, hex).0, t);
        GroupTextAgain(s, c, hex, o, d, t);
        GroupAgain(s, n, hex, o, d + |w|, t);
      }
      GroupTurnQuiet(o, d);
    }
  }

  lemma GroupAtEnd(s: string, hex: string -> string)
    ensures GroupLabels(s, |s|, hex).0 == [] && !GroupClosed(s, |s|) && GroupQuiet(s, |s|) && GroupEnd(s, |s|) == |s|
  {
  }

  // ----------------------------------------------------------- the whole pass

  lemma MatcherTurnStep(o: string, d: nat, w: string)
    requires MatcherTurn(o, d, w)
    ensures d + |w| <= |o| && MatchersQuiet(o, d) == MatchersQuiet(o, d + |w|) && Matchers(o, d).1 == Matchers(o, d + |w|).1
  {
    hide MatcherPiece, MatcherPieceQuiet;
  }

  /** The name matcher that the pass writes, read again inside braces. */
  lemma NameMatcherAgain(o: string, d: nat, v: string, t: string)
    requires Word(v, true) && GoesOn(o, d, NamePrefix(v), t)
    ensures var n := d + |NamePrefix(v)|;
            && n <= |o| && o[d] == '{' && GoesOn(o, n, [], t)
            && MatchersQuiet(o, d + 1) == MatchersQuiet(o, n) && Matchers(o, d + 1).1 == Matchers(o, n).1
  {
    hide GoesOn, MatcherTurn, MatchersQuiet, Matchers, Quoted, Word, NamePrefix, NameLabel;
    var q, name := Quoted(v), NameLabel();
    NamePrefixParts(v);
    Split(o, d, ['{'], name + (['='] + q), t);
    Split(o, d + 1, name, ['='] + q, t);
    Split(o, d + 9, ['='], q, t);
    Behind(o, d, ['{'], name + (['='] + q) + t);
    assert o[d + 0] == ['{'][0];
    assert ['='] + q + t == ['='] + (q + t);
    NameLabelTurn(o, d + 1, q + t);
    MatcherTurnStep(o, d + 1, name);
    MatcherPlainAgain(o, d + 9, '=', q + t);
    MatcherTurnStep(o, d + 9, ['=']);
    MatcherQuotedAgain(o, d + 10, v, t);
    MatcherTurnStep(o, d + 10, q);
    Behind(o, d + 10, q, t);
    assert [] + t == t;
    AtBehind(o, d + 10 + |q|, [], t);
  }

  /** The label of the metric name. */
  function NameLabel(): (w: string)
    ensures |w| == 8
  { "__name__" }

  lemma NamePrefixParts(v: string)
    ensures NamePrefix(v) == ['{'] + (NameLabel() + (['='] + Quoted(v))) && |NamePrefix(v)| == 10 + |Quoted(v)|
  {
    hide Quoted;
    assert "{__name__=" == ['{'] + ("__name__" + ['=']);
  }

  lemma NameLabelTurn(o: string, d: nat, t: string)
    requires GoesOn(o, d, NameLabel(), ['='] + t)
    ensures MatcherTurn(o, d, NameLabel())
  {
    hide GoesOn, QuietBody, CopyBody;
    assert IsLabel(NameLabel());
    assert Stops(['='] + t, false);
    LabelAgain(o, d, NameLabel(), ['='] + t);
    LabelIsNoQuote(o[d]);
  }

  /** A turn of the pass that a second run makes alike, and quietly. */
  ghost predicate Settled(o: string, d: nat, w: string) { d < |o| && PieceQuiet(o, d) && PieceEnd(o, d) == d + |w| }

  lemma OtlpStart(s: string, c: nat, hex: string -> string)
    requires c < |s|
    ensures var w := OtlpPiece(s, c, hex).0; w != [] && (w[0] == s[c] || (w[0] == '{' && MetricFirst(s[c])))
  {
    hide CopyBody, Matchers, GroupLabels, GroupingAt, MetricEvent, NamePrefix;
  }

  lemma OtlpFirst(s: string, c: nat, hex: string -> string)
    requires c < |s|
    ensures var w := Otlp(s, c, hex); w != [] && (w[0] == s[c] || (w[0] == '{' && MetricFirst(s[c])))
  {
    hide OtlpPiece;
    OtlpStart(s, c, hex);
  }

  lemma OtlpStop(s: string, e: nat, hex: string -> string)
    requires e <= |s| && Stops(s[e..], true)
    ensures Stops(Otlp(s, e, hex), true)
  {
    hide Otlp;
    if e < |s| {
      OtlpFirst(s, e, hex);
      assert s[e] == s[e..][0];
    } else {
      OtlpEnds(s, hex);
    }
  }

  lemma OtlpEnds(s: string, hex: string -> string)
    ensures Otlp(s, |s|, hex) == []
  {
  }

  lemma OtlpPlain(s: string, c: nat, hex: string -> string)
    requires c < |s| && !Quote(s[c]) && s[c] != '{' && !MetricFirst(s[c])
    ensures Otlp(s, c, hex) == [s[c]] + Otlp(s, c + 1, hex)
  {
  }

  /** An opening parenthesis after spaces is in the output exactly when in the text. */
  lemma {:induction false} ParenComes(s: string, c: nat, hex: string -> string, o: string, d: nat)
    requires c <= |s| && GoesOn(o, d, Otlp(s, c, hex), [])
    ensures CharAt(o, SkipSpace(o, d), '(') <==> CharAt(s, SkipSpace(s, c), '(')
    decreases |s| - c
  {
    hide Otlp, GoesOn, Whitespace;
    var w := Otlp(s, c, hex);
    Behind(o, d, w, []);
    if c == |s| {
      OtlpEnds(s, hex);
    } else {
      OtlpFirst(s, c, hex);
      assert o[d + 0] == w[0];
      if Whitespace(s[c]) {
        SpaceIsPlain(s[c]);
        OtlpPlain(s, c, hex);
        OneFurther(o, d, w, []);
        assert w[1..] == Otlp(s, c + 1, hex);
        ParenComes(s, c + 1, hex, o, d + 1);
      } else {
        QuoteIsNoSpace();
      }
    }
  }

  lemma LiteralSettles(o: string, d: nat, q: char, body: string, t: string)
    requires Quote(q) && (Closed(q, body) || t == []) && GoesOn(o, d, [q] + CopyBody(q, body).0, t)
    ensures Settled(o, d, [q] + CopyBody(q, body).0)
  {
    hide CopyBody, Closed, QuietBody, Matchers, MatchersQuiet;
    assert |o[d..]| > 0;
    WrittenAgain(o, d, q, body, t);
  }

  lemma BracesSettle(s: string, c: nat, o: string, d: nat, t: string)
    requires c <= |s| && GoesOn(o, d, ['{'] + Matchers(s, c).0, t) && (MatchersClosed(s, c) || t == [])
    ensures Settled(o, d, ['{'] + Matchers(s, c).0)
  {
    hide Matchers, MatchersClosed, GoesOn, MatchersQuiet, CopyBody, QuietBody;
    Behind(o, d, ['{'] + Matchers(s, c).0, t);
    assert o[d + 0] == '{';
    Split(o, d, ['{'], Matchers(s, c).0, t);
    MatchersAgain(s, c, o, d + 1, t);
  }

  /** The name matcher alone. */
  lemma NameSettles(o: string, d: nat, v: string, t: string)
    requires Word(v, true) && GoesOn(o, d, NamePrefix(v) + "}", t)
    ensures Settled(o, d, NamePrefix(v) + "}")
  {
    hide Matchers, GoesOn, MatchersQuiet, CopyBody, QuietBody, NamePrefix, Word;
    Split(o, d, NamePrefix(v), "}", t);
    NameMatcherAgain(o, d, v, "}" + t);
    var n := d + |NamePrefix(v)|;
    Behind(o, n, "}", t);
    assert o[n + 0] == "}"[0];
    ClosingBrace(o, n);
  }

  lemma ClosingBrace(o: string, n: nat)
    requires n < |o| && o[n] == '}'
    ensures MatchersQuiet(o, n) && Matchers(o, n).1 == n + 1
  {
  }

  /** The name matcher before further matchers. */
  lemma NameAndMatchersSettle(s: string, c: nat, o: string, d: nat, v: string, t: string)
    requires c <= |s| && Word(v, true) && GoesOn(o, d, NamePrefix(v) + "," + Matchers(s, c).0, t) && (MatchersClosed(s, c) || t == [])
    ensures Settled(o, d, NamePrefix(v) + "," + Matchers(s, c).0)
  {
    hide Matchers, MatchersClosed, GoesOn, MatchersQuiet, CopyBody, QuietBody, NamePrefix, Word, MatcherTurn;
    var ms := Matchers(s, c).0;
    var n := d + |NamePrefix(v)|;
    Split(o, d, NamePrefix(v) + ",", ms, t);
    Split(o, d, NamePrefix(v), ",", ms + t);
    NameMatcherAgain(o, d, v, "," + (ms + t));
    MatcherPlainAgain(o, n, ',', ms + t);
    MatcherTurnStep(o, n, ",");
    MatchersAgain(s, c, o, n + 1, t);
  }

  lemma PlainSettles(o: string, d: nat, x: char, t: string)
    requires GoesOn(o, d, [x], t) && !Quote(x) && x != '{' && !MetricFirst(x)
    ensures Settled(o, d, [x])
  {
    hide GoesOn, CopyBody, Matchers, MatchersQuiet, QuietBody;
    Behind(o, d, [x], t);
    assert o[d + 0] == [x][0];
  }

  /** A name read again at the top level. */
  lemma TokenAgain(s: string, c: nat, hex: string -> string, o: string, d: nat)
    requires c < |s| && MetricFirst(s[c])
    requires var e := SpanEnd(s, c + 1, true); GoesOn(o, d, s[c..e], Otlp(s, e, hex))
    ensures var e := SpanEnd(s, c + 1, true);
            && d + e - c <= |o| && o[d] == s[c] && SpanEnd(o, d + 1, true) == d + e - c && o[d..d + e - c] == s[c..e]
            && (CharAt(o, SkipSpace(o, d + e - c), '(') <==> CharAt(s, SkipSpace(s, e), '('))
  {
    hide *;
    var e := SpanEnd(s, c + 1, true);
    NameTail(s, c, true);
    WordAgain(s, e, hex, o, d, s[c..e]);
  }

  lemma WordAgain(s: string, e: nat, hex: string -> string, o: string, d: nat, w: string)
    requires e <= |s| && w != [] && Word(w[1..], true) && Stops(s[e..], true) && GoesOn(o, d, w, Otlp(s, e, hex))
    ensures d + |w| <= |o| && o[d] == w[0] && SpanEnd(o, d + 1, true) == d + |w| && o[d..d + |w|] == w
    ensures CharAt(o, SkipSpace(o, d + |w|), '(') <==> CharAt(s, SkipSpace(s, e), '(')
  {
    hide *;
    OtlpStop(s, e, hex);
    NameAgain(o, d, w, Otlp(s, e, hex), true);
    ParenAgain(s, e, hex, o, d, w);
  }

  lemma ParenAgain(s: string, e: nat, hex: string -> string, o: string, d: nat, w: string)
    requires e <= |s| && GoesOn(o, d, w, Otlp(s, e, hex))
    ensures d + |w| <= |o| && (CharAt(o, SkipSpace(o, d + |w|), '(') <==> CharAt(s, SkipSpace(s, e), '('))
  {
    hide *;
    Behind(o, d, w, Otlp(s, e, hex));
    assert Otlp(s, e, hex) + [] == Otlp(s, e, hex);
    AtBehind(o, d + |w|, Otlp(s, e, hex), []);
    ParenComes(s, e, hex, o, d + |w|);
  }

  lemma MetricIsNoQuote(x: char)
    requires MetricFirst(x)
    ensures !Quote(x) && x != '{'
  {
  }

  /** A name that stays: not dotted, or dotted and called. */
  lemma TokenSettles(s: string, c: nat, hex: string -> string, o: string, d: nat)
    requires c < |s| && MetricFirst(s[c])
    requires var e := SpanEnd(s, c + 1, true);
             && GoesOn(o, d, s[c..e], Otlp(s, e, hex))
             && if '.' in s[c..e] then !MetricEvent(s, e) else !GroupingAt(s, c, e)
    ensures Settled(o, d, s[c..SpanEnd(s, c + 1, true)])
  {
    hide GoesOn, Otlp, SkipSpace, CopyBody, Matchers, MatchersQuiet, QuietBody, GroupQuiet, MetricFirst, GroupingKeyword;
    TokenAgain(s, c, hex, o, d);
    MetricIsNoQuote(s[c]);
  }

  lemma {:induction false} OpenIsNext(s: string, e: nat)
    requires e <= |s| && CharAt(s, SkipSpace(s, e), '(')
    ensures GroupOpen(s, e) == SkipSpace(s, e) + 1
    decreases |s| - e
  {
    if s[e] != '(' { OpenIsNext(s, e + 1); }
  }

  /** The way to the opening parenthesis, read again. */
  lemma OpenAgain(s: string, e: nat, o: string, d: nat, t: string)
    requires e <= |s| && CharAt(s, SkipSpace(s, e), '(') && GoesOn(o, d, s[e..GroupOpen(s, e)], t)
    ensures CharAt(o, SkipSpace(o, d), '(') && GroupOpen(o, d) == d + GroupOpen(s, e) - e
  {
    hide GoesOn, SkipSpace, GroupOpen;
    OpenIsNext(s, e);
    var k := SkipSpace(s, e);
    var w := s[e..k + 1];
    Behind(o, d, w, t);
    assert w <= o[d..];
    SameSpaces(o, d, s, e);
    assert o[d + (k - e)] == w[k - e];
    OpenIsNext(o, d);
  }

  /** After a name comes a space or the parenthesis. */
  lemma StopsBeforeOpen(s: string, e: nat, t: string)
    requires e <= |s| && Stops(s[e..], true) && CharAt(s, SkipSpace(s, e), '(')
    ensures e < GroupOpen(s, e) && Stops(s[e..GroupOpen(s, e)] + t, true)
  {
    OpenIsNext(s, e);
    assert s[e..][0] == s[e];
  }

  lemma GroupSettles(s: string, c: nat, hex: string -> string, o: string, d: nat, t: string)
    requires c < |s| && MetricFirst(s[c]) && Fingerprints(hex)
    requires var e := SpanEnd(s, c + 1, true);
             var open := GroupOpen(s, e);
             && '.' !in s[c..e] && GroupingAt(s, c, e)
             && GoesOn(o, d, s[c..e] + s[e..open] + GroupLabels(s, open, hex).0, t) && (GroupClosed(s, open) || t == [])
    ensures var e := SpanEnd(s, c + 1, true);
            var open := GroupOpen(s, e);
            Settled(o, d, s[c..e] + s[e..open] + GroupLabels(s, open, hex).0)
  {
    hide *;
    var e := SpanEnd(s, c + 1, true);
    GroupingIs(s, c, e);
    NameTail(s, c, true);
    ClauseAgain(s, e, hex, o, d, s[c..e], t);
  }

  lemma GroupingIs(s: string, c: nat, e: nat)
    requires c <= e <= |s|
    ensures GroupingAt(s, c, e) <==> GroupingKeyword(s[c..e]) && CharAt(s, SkipSpace(s, e), '(')
  {
  }

  /** A grouping clause after the keyword `w`, read again. */
  lemma ClauseAgain(s: string, e: nat, hex: string -> string, o: string, d: nat, w: string, t: string)
    requires e <= |s| && w != [] && MetricFirst(w[0]) && Word(w[1..], true) && Stops(s[e..], true) && Fingerprints(hex)
    requires '.' !in w && GroupingKeyword(w) && CharAt(s, SkipSpace(s, e), '(')
    requires var open := GroupOpen(s, e);
             GoesOn(o, d, w + s[e..open] + GroupLabels(s, open, hex).0, t) && (GroupClosed(s, open) || t == [])
    ensures var open := GroupOpen(s, e); Settled(o, d, w + s[e..open] + GroupLabels(s, open, hex).0)
  {
    hide *;
    var open := GroupOpen(s, e);
    var way, v := s[e..open], GroupLabels(s, open, hex).0;
    Split(o, d, w + way, v, t);
    Split(o, d, w, way, v + t);
    StopsBeforeOpen(s, e, v + t);
    NameAgain(o, d, w, way + (v + t), true);
    OpenAgain(s, e, o, d + |w|, v + t);
    GroupAgain(s, open, hex, o, d + |w| + |way|, t);
    GroupingIs(o, d, d + |w|);
    ClauseSettles(o, d, w + way + v);
  }

  lemma ClauseSettles(o: string, d: nat, w: string)
    requires d < |o| && MetricFirst(o[d])
    requires var e := SpanEnd(o, d + 1, true);
             && '.' !in o[d..e] && GroupingAt(o, d, e)
             && GroupQuiet(o, GroupOpen(o, e)) && GroupEnd(o, GroupOpen(o, e)) == d + |w|
    ensures Settled(o, d, w)
  {
    hide GroupOpen, CopyBody, Matchers, MatchersQuiet, QuietBody, GroupQuiet, MetricFirst, GroupingAt, GroupEnd, Dotted;
    MetricIsNoQuote(o[d]);
  }

  /** A dotted name that is not called. */
  lemma DottedSettles(s: string, c: nat, hex: string -> string, o: string, d: nat)
    requires c < |s| && MetricFirst(s[c])
    requires var e := SpanEnd(s, c + 1, true);
             var (w, n) := Dotted(s, e, s[c..e]);
             MetricEvent(s, e) && GoesOn(o, d, w, Otlp(s, n, hex))
    ensures var e := SpanEnd(s, c + 1, true); Settled(o, d, Dotted(s, e, s[c..e]).0)
  {
    hide GoesOn, Otlp, Matchers, MatchersClosed, MetricEvent, NamePrefix, Settled, Word, MetricFirst;
    var e := SpanEnd(s, c + 1, true);
    var v := s[c..e];
    var (w, n) := Dotted(s, e, v);
    var t := Otlp(s, n, hex);
    NameIsWord(s, c, true);
    var k := SkipSpace(s, e);
    if CharAt(s, k, '{') && !CharAt(s, SkipSpace(s, k + 1), '}') {
      ClosedOrLast(s, k + 1, hex);
      NameAndMatchersSettle(s, k + 1, o, d, v, t);
    } else {
      NameSettles(o, d, v, t);
    }
  }

  /** Nothing follows braces that are not closed. */
  lemma ClosedOrLast(s: string, c: nat, hex: string -> string)
    requires c <= |s|
    ensures MatchersClosed(s, c) || Otlp(s, Matchers(s, c).1, hex) == []
  {
    hide Matchers, MatchersClosed;
    if !MatchersClosed(s, c) { OpenMatchersEnd(s, c); }
  }

  lemma GroupClosedOrLast(s: string, c: nat, hex: string -> string)
    requires c <= |s|
    ensures GroupClosed(s, c) || Otlp(s, GroupLabels(s, c, hex).1, hex) == []
  {
    hide GroupLabels, GroupClosed, GroupEnd;
    GroupEnds(s, c, hex);
    if !GroupClosed(s, c) { OpenGroupEnds(s, c); }
  }

  /** Every turn of the pass writes what a second run leaves alone. */
  lemma PieceSettles(s: string, c: nat, hex: string -> string, o: string, d: nat)
    requires c < |s| && Fingerprints(hex)
    requires var (w, n) := OtlpPiece(s, c, hex); GoesOn(o, d, w, Otlp(s, n, hex))
    ensures Settled(o, d, OtlpPiece(s, c, hex).0)
  {
    hide *;
    PieceCases(s, c, hex);
    var (w, n) := OtlpPiece(s, c, hex);
    var t := Otlp(s, n, hex);
    if Quote(s[c]) {
      OtlpEnds(s, hex);
      if !Closed(s[c], s[c + 1..]) { OpenTakesAll(s[c], s[c + 1..]); }
      LiteralSettles(o, d, s[c], s[c + 1..], t);
    } else if s[c] == '{' {
      ClosedOrLast(s, c + 1, hex);
      BracesSettle(s, c + 1, o, d, t);
    } else if MetricFirst(s[c]) {
      NamePieceSettles(s, c, hex, o, d);
    } else {
      PlainSettles(o, d, s[c], t);
    }
  }

  /** The turns that do not start with a name. */
  lemma PieceCases(s: string, c: nat, hex: string -> string)
    requires c < |s|
    ensures Quote(s[c]) ==> var b := CopyBody(s[c], s[c + 1..]); OtlpPiece(s, c, hex) == ([s[c]] + b.0, c + 1 + b.1)
    ensures !Quote(s[c]) && s[c] == '{' ==> OtlpPiece(s, c, hex) == (['{'] + Matchers(s, c + 1).0, Matchers(s, c + 1).1)
    ensures !Quote(s[c]) && s[c] != '{' && !MetricFirst(s[c]) ==> OtlpPiece(s, c, hex) == ([s[c]], c + 1)
  {
    hide CopyBody, Matchers, Dotted, GroupLabels, GroupingAt;
  }

  lemma NamePieceSettles(s: string, c: nat, hex: string -> string, o: string, d: nat)
    requires c < |s| && Fingerprints(hex) && MetricFirst(s[c])
    requires var (w, n) := OtlpPiece(s, c, hex); GoesOn(o, d, w, Otlp(s, n, hex))
    ensures Settled(o, d, OtlpPiece(s, c, hex).0)
  {
    hide GoesOn, Otlp, MetricEvent, Settled, MetricFirst, CopyBody, GroupLabels, GroupClosed, GroupingAt, Dotted, Fingerprints;
    MetricIsNoQuote(s[c]);
    var e := SpanEnd(s, c + 1, true);
    if '.' in s[c..e] {
      if MetricEvent(s, e) {
        DottedSettles(s, c, hex, o, d);
      } else {
        CalledStays(s, c, e);
        TokenSettles(s, c, hex, o, d);
      }
    } else if GroupingAt(s, c, e) {
      var open := GroupOpen(s, e);
      GroupClosedOrLast(s, open, hex);
      GroupSettles(s, c, hex, o, d, Otlp(s, GroupLabels(s, open, hex).1, hex));
    } else {
      TokenSettles(s, c, hex, o, d);
    }
  }

  lemma CalledStays(s: string, c: nat, e: nat)
    requires c <= e <= |s| && !MetricEvent(s, e)
    ensures Dotted(s, e, s[c..e]) == (s[c..e], e)
  {
  }

  lemma {:induction false} OtlpIsQuiet(s: string, c: nat, hex: string -> string, o: string, d: nat)
    requires c <= |s| && Fingerprints(hex) && GoesOn(o, d, Otlp(s, c, hex), [])
    ensures OtlpQuiet(o, d)
    decreases |s| - c
  {
    hide GoesOn, OtlpPiece, Fingerprints, PieceQuiet, PieceEnd;
    Behind(o, d, Otlp(s, c, hex), []);
    if c < |s| {
      var (w, n) := OtlpPiece(s, c, hex);
      var t := Otlp(s, n, hex);
      Split(o, d, w, t, []);
      assert t + [] == t;
      PieceSettles(s, c, hex, o, d);
      OtlpIsQuiet(s, n, hex, o, d + |w|);
    }
  }

  /** The OTLP pass is idempotent, on every text. */
  lemma OtlpTwice(s: string, hex: string -> string)
    requires Fingerprints(hex)
    ensures Otlp(Otlp(s, 0, hex), 0, hex) == Otlp(s, 0, hex)
  {
    hide Otlp, OtlpQuiet, Fingerprints;
    var o := Otlp(s, 0, hex);
    assert o[0..] == o + [];
    AtBehind(o, 0, o, []);
    OtlpIsQuiet(s, 0, hex, o, 0);
    FingerprintsUndotted(hex);
    OtlpKept(o, 0, hex);
    assert o[0..] == o;
  }
}
