/** The alias pass followed by the OTLP pass: when the literals of a query survive both. */
module PromqlPasses {
  import opened PromqlText
  import opened PromqlRewrite
  import opened PromqlAgain
  import opened PromqlOtlpAgain
  import opened PromqlLexer
  import opened PromqlEdits
  import opened PromqlLiterals
  import opened PromqlClauses

  // ------------------------------------- the text and its aliased form, in step

  /** `o` goes on at `d` with what the alias pass writes from `c` on. */
  predicate InStep(s: string, c: nat, o: string, d: nat) { c <= |s| && d <= |o| && o[d..] == Aliased(s, c) }

  lemma StepPlain(s: string, c: nat, o: string, d: nat)
    requires InStep(s, c, o, d) && c < |s| && !Quote(s[c]) && !AliasAt(s, c)
    ensures d < |o| && o[d] == s[c] && InStep(s, c + 1, o, d + 1)
  {
    hide AliasAt, CopyBody, Smoothing;
    assert o[d] == o[d..][0] && o[d + 1..] == o[d..][1..];
  }

  /** Behind the literal that opens at `c`. */
  function LiteralEnd(s: string, c: nat): (n: nat)
    requires c < |s|
    ensures c < n <= |s|
  {
    c + 1 + CopyBody(s[c], s[c + 1..]).1
  }

  lemma StepLiteral(s: string, c: nat, o: string, d: nat)
    requires InStep(s, c, o, d) && c < |s| && Quote(s[c])
    ensures d < |o| && o[d] == s[c] && InStep(s, LiteralEnd(s, c), o, LiteralEnd(o, d))
  {
    hide CopyBody, Closed;
    var n := LiteralEnd(s, c);
    var t := Aliased(s, n);
    if !Closed(s[c], s[c + 1..]) { OpenTakesAll(s[c], s[c + 1..]); }
    assert |o[d..]| > 0;
    WrittenAgain(o, d, s[c], s[c + 1..], t);
  }

  lemma StepName(s: string, c: nat, o: string, d: nat)
    requires InStep(s, c, o, d) && AliasAt(s, c)
    ensures c + 12 < |s| && d + 28 < |o| && InStep(s, c + 12, o, d + 28) && o[d..d + 28] == Smoothing()
    ensures o[d + 28] == s[c + 12] && (Whitespace(s[c + 12]) || s[c + 12] == '(')
  {
    hide AliasPiece, Smoothing, HoltWinters, Whitespace;
    NameTurn(s, c);
    assert o[d..d + 28] == o[d..][..28] && o[d + 28..] == o[d..][28..];
    AfterName(s, c);
    SpaceIsNoName(s, c + 12);
    StepPlain(s, c + 12, o, d + 28);
  }

  lemma NameTurn(s: string, c: nat)
    requires AliasAt(s, c)
    ensures c < |s| && AliasPiece(s, c) == (Smoothing(), c + 12)
  {
    hide SkipSpace, Smoothing;
    assert s[c] == s[c..c + 12][0] == 'h';
  }

  lemma AfterName(s: string, c: nat)
    requires AliasAt(s, c)
    ensures c + 12 < |s| && (Whitespace(s[c + 12]) || s[c + 12] == '(')
  {
  }

  lemma SpaceIsNoName(s: string, k: nat)
    requires k < |s| && (Whitespace(s[k]) || s[k] == '(')
    ensures !Quote(s[k]) && !AliasAt(s, k)
  {
    hide AliasAt;
    if AliasAt(s, k) { AliasFits(s, k); }
  }

  /** At the end of one, at the end of the other. */
  lemma StepEnd(s: string, c: nat, o: string, d: nat)
    requires InStep(s, c, o, d)
    ensures c == |s| <==> d == |o|
  {
    hide AliasPiece;
    if c < |s| { AliasWrites(s, c); }
  }

  lemma AliasWrites(s: string, c: nat)
    requires c < |s|
    ensures AliasPiece(s, c).0 != []
  {
    hide AliasAt, CopyBody;
  }

  /** Both go on with the same character, or with the two names. */
  lemma StepStart(s: string, c: nat, o: string, d: nat)
    requires InStep(s, c, o, d) && c < |s|
    ensures d < |o| && (AliasAt(s, c) ==> s[c] == 'h' && o[d] == 'd') && (!AliasAt(s, c) ==> o[d] == s[c])
  {
    hide AliasAt, InStep, Smoothing;
    if Quote(s[c]) {
      StepLiteral(s, c, o, d);
      if AliasAt(s, c) { AliasFits(s, c); }
    } else if AliasAt(s, c) {
      AliasFits(s, c);
      StepName(s, c, o, d);
      assert o[d] == o[d..d + 28][0];
    } else {
      StepPlain(s, c, o, d);
    }
  }

  lemma StartClass(s: string, c: nat, o: string, d: nat)
    requires InStep(s, c, o, d) && c < |s|
    ensures d < |o| && (Quote(s[c]) <==> Quote(o[d])) && (MetricFirst(s[c]) <==> MetricFirst(o[d]))
    ensures (LabelFirst(s[c]) <==> LabelFirst(o[d])) && (s[c] == '{' <==> o[d] == '{') && (s[c] == '}' <==> o[d] == '}')
    ensures (s[c] == ')' <==> o[d] == ')') && (s[c] == '(' <==> o[d] == '(') && (Whitespace(s[c]) <==> Whitespace(o[d]))
  {
    hide AliasAt, InStep;
    StepStart(s, c, o, d);
  }

  lemma SameCharAt(s: string, c: nat, o: string, d: nat)
    requires InStep(s, c, o, d)
    ensures (CharAt(s, c, '(') <==> CharAt(o, d, '(')) && (CharAt(s, c, '{') <==> CharAt(o, d, '{')) && (CharAt(s, c, '}') <==> CharAt(o, d, '}'))
  {
    hide Aliased;
    StepEnd(s, c, o, d);
    if c < |s| { StartClass(s, c, o, d); }
  }

  lemma {:induction false} StepSpaces(s: string, c: nat, o: string, d: nat)
    requires InStep(s, c, o, d)
    ensures InStep(s, SkipSpace(s, c), o, SkipSpace(o, d))
    decreases |s| - c
  {
    hide InStep, AliasAt, Whitespace;
    StepEnd(s, c, o, d);
    if c < |s| {
      StartClass(s, c, o, d);
      if Whitespace(s[c]) {
        SpaceIsNoName(s, c);
        StepPlain(s, c, o, d);
        StepSpaces(s, c + 1, o, d + 1);
      }
    }
  }

  /** One more character that is not a letter, such as a brace or a parenthesis. */
  lemma StepMark(s: string, c: nat, o: string, d: nat)
    requires InStep(s, c, o, d) && c < |s| && !Quote(s[c]) && !LabelFirst(s[c])
    ensures d < |o| && o[d] == s[c] && InStep(s, c + 1, o, d + 1)
  {
    hide InStep, AliasAt;
    if AliasAt(s, c) { AliasFits(s, c); }
    StepPlain(s, c, o, d);
  }

  // -------------------------------------------------------------------- names

  /** The same word, or two words too long to be keywords, with dots in both or neither. */
  predicate SameWord(v: string, w: string) {
    ('.' in v <==> '.' in w) && (v == w || (|v| >= 12 && |w| >= 12))
  }

  lemma SameWordKeyword(v: string, w: string)
    requires SameWord(v, w)
    ensures GroupingKeyword(v) <==> GroupingKeyword(w)
  {
  }

  lemma {:induction false} StepWord(s: string, c: nat, o: string, d: nat, metric: bool)
    requires InStep(s, c, o, d)
    ensures var e, f := SpanEnd(s, c, metric), SpanEnd(o, d, metric); InStep(s, e, o, f) && SameWord(s[c..e], o[d..f])
    decreases |s| - c
  {
    hide InStep, AliasAt, LabelRest;
    StepEnd(s, c, o, d);
    if c < |s| {
      StepStart(s, c, o, d);
      if AliasAt(s, c) {
        StepOldName(s, c, o, d, metric);
      } else if SpanChar(s[c], metric) {
        WordNoQuote(s[c], metric);
        StepPlain(s, c, o, d);
        StepWord(s, c + 1, o, d + 1, metric);
        OneMore(s, c, SpanEnd(s, c + 1, metric), o, d, SpanEnd(o, d + 1, metric));
      }
    }
  }

  lemma WordNoQuote(x: char, metric: bool)
    requires SpanChar(x, metric)
    ensures !Quote(x) && x != '\\'
  {
  }

  lemma OneMore(s: string, c: nat, e: nat, o: string, d: nat, f: nat)
    requires c < e <= |s| && d < f <= |o| && s[c] == o[d] && SameWord(s[c + 1..e], o[d + 1..f])
    ensures SameWord(s[c..e], o[d..f])
  {
    assert s[c..e] == [s[c]] + s[c + 1..e] && o[d..f] == [o[d]] + o[d + 1..f];
  }

  /** The old name ends its word, and so does the new one. */
  lemma StepOldName(s: string, c: nat, o: string, d: nat, metric: bool)
    requires InStep(s, c, o, d) && AliasAt(s, c)
    ensures var e, f := SpanEnd(s, c, metric), SpanEnd(o, d, metric); InStep(s, e, o, f) && SameWord(s[c..e], o[d..f])
  {
    hide InStep, AliasAt, Smoothing, HoltWinters;
    StepName(s, c, o, d);
    NamesAreWords(s, c, metric);
    var v, w := s[c..c + 12], o[d..d + 28];
    SpaceStops(s[c + 12], metric);
    assert s[c..] == v + s[c + 12..] && o[d..] == w + o[d + 28..];
    AtBehind(s, c, v, s[c + 12..]);
    AtBehind(o, d, w, o[d + 28..]);
    assert Stops(s[c + 12..], metric) && Stops(o[d + 28..], metric);
    WordIsSpan(s, c, v, s[c + 12..], metric);
    WordIsSpan(o, d, w, o[d + 28..], metric);
  }

  lemma SpaceStops(x: char, metric: bool)
    requires Whitespace(x) || x == '('
    ensures !SpanChar(x, metric)
  {
  }

  lemma NamesAreWords(s: string, c: nat, metric: bool)
    requires AliasAt(s, c)
    ensures c + 12 <= |s| && Word(s[c..c + 12], metric) && Word(Smoothing(), metric) && '.' !in s[c..c + 12] && '.' !in Smoothing()
  {
    hide SkipSpace;
    NewNameChars();
  }

  /** A word from its first character on. */
  lemma WordFromFirst(s: string, c: nat, metric: bool)
    requires c < |s| && SpanChar(s[c], metric)
    ensures SpanEnd(s, c + 1, metric) == SpanEnd(s, c, metric)
  {
  }

  /** A name at the start of a turn. */
  lemma StepToken(s: string, c: nat, o: string, d: nat, metric: bool)
    requires InStep(s, c, o, d) && c < |s| && SpanChar(s[c], metric)
    ensures d < |o|
    ensures var e, f := SpanEnd(s, c + 1, metric), SpanEnd(o, d + 1, metric); InStep(s, e, o, f) && SameWord(s[c..e], o[d..f])
  {
    hide InStep, SpanEnd, SameWord, AliasAt;
    StepStart(s, c, o, d);
    WordFromFirst(s, c, metric);
    assert SpanChar(o[d], metric);
    WordFromFirst(o, d, metric);
    StepWord(s, c, o, d, metric);
  }

  // ----------------------------------------------------------------- the pass

  lemma {:induction false} StepMatchers(s: string, c: nat, o: string, d: nat)
    requires InStep(s, c, o, d)
    ensures InStep(s, Matchers(s, c).1, o, Matchers(o, d).1)
    decreases |s| - c
  {
    hide InStep, MatcherPiece, LabelFirst, Quote;
    StepEnd(s, c, o, d);
    InStepBounds(s, c, o, d);
    if c < |s| {
      StartClass(s, c, o, d);
      if s[c] == '}' {
        MarkIsPlain();
        StepMark(s, c, o, d);
      } else {
        StepMatcherPiece(s, c, o, d);
        StepMatchers(s, MatcherPiece(s, c).1, o, MatcherPiece(o, d).1);
      }
    }
  }

  lemma InStepBounds(s: string, c: nat, o: string, d: nat)
    requires InStep(s, c, o, d)
    ensures c <= |s| && d <= |o|
  {
  }

  lemma MarkIsPlain()
    ensures !Quote('}') && !LabelFirst('}') && !Quote('{') && !LabelFirst('{') && !Quote('(') && !LabelFirst('(') && !Quote(')') && !LabelFirst(')')
  {
  }

  lemma StepMatcherPiece(s: string, c: nat, o: string, d: nat)
    requires InStep(s, c, o, d) && c < |s| && s[c] != '}' && d < |o| && o[d] != '}'
    ensures InStep(s, MatcherPiece(s, c).1, o, MatcherPiece(o, d).1)
  {
    hide InStep, CopyBody, MatcherEvent, Quoted, SpanEnd, LabelFirst, Quote;
    StartClass(s, c, o, d);
    if Quote(s[c]) {
      StepLiteral(s, c, o, d);
    } else if LabelFirst(s[c]) {
      LabelIsNoQuote(s[c]);
      StepToken(s, c, o, d, false);
    } else {
      StepMark(s, c, o, d);
    }
  }

  lemma StepDotted(s: string, e: nat, o: string, f: nat, v: string, w: string)
    requires InStep(s, e, o, f) && e <= |s| && f <= |o|
    ensures InStep(s, Dotted(s, e, v).1, o, Dotted(o, f, w).1)
  {
    hide InStep, SkipSpace, Matchers, NamePrefix, CharAt;
    StepSpaces(s, e, o, f);
    var k, l := SkipSpace(s, e), SkipSpace(o, f);
    SameCharAt(s, k, o, l);
    if CharAt(s, k, '{') {
      BraceIsAt(s, k);
      BraceIsAt(o, l);
      MarkIsPlain();
      StepMark(s, k, o, l);
      StepSpaces(s, k + 1, o, l + 1);
      StepMatchers(s, k + 1, o, l + 1);
      var a, b := SkipSpace(s, k + 1), SkipSpace(o, l + 1);
      SameCharAt(s, a, o, b);
      if CharAt(s, a, '}') {
        BraceIsAt(s, a);
        StepMark(s, a, o, b);
      }
    }
  }

  lemma BraceIsAt(s: string, k: nat)
    ensures CharAt(s, k, '{') ==> k < |s| && s[k] == '{'
    ensures CharAt(s, k, '}') ==> k < |s| && s[k] == '}'
    ensures CharAt(s, k, '(') ==> k < |s| && s[k] == '('
  {
  }

  // ---------------------------------------------------------- inside a literal

  /** `o` goes on at `d` with the copy of a literal from `c` on, and what follows it. */
  predicate InBody(q: char, s: string, c: nat, o: string, d: nat) {
    c <= |s| && d <= |o| && o[d..] == CopyBody(q, s[c..]).0 + Aliased(s, c + CopyBody(q, s[c..]).1)
  }

  /** The same behind a backslash. */
  predicate InPair(q: char, s: string, c: nat, o: string, d: nat) {
    c < |s| && d < |o| && o[d] == s[c] && InBody(q, s, c + 1, o, d + 1)
  }

  lemma IntoBody(s: string, c: nat, o: string, d: nat)
    requires InStep(s, c, o, d) && c < |s| && Quote(s[c])
    ensures d < |o| && o[d] == s[c] && InBody(s[c], s, c + 1, o, d + 1)
  {
    hide CopyBody;
    assert o[d] == o[d..][0] && o[d + 1..] == o[d..][1..];
    var b := CopyBody(s[c], s[c + 1..]);
    assert o[d..] == [s[c]] + b.0 + Aliased(s, c + 1 + b.1);
  }

  lemma BodyEnd(q: char, s: string, c: nat, o: string, d: nat)
    requires InBody(q, s, c, o, d)
    ensures c == |s| <==> d == |o|
  {
    hide CopyBody, Closed, Aliased;
    BodyTurn(q, s[c..]);
    AliasedEnds(s);
  }

  lemma AliasedEnds(s: string)
    ensures Aliased(s, |s|) == []
  {
  }

  lemma BodyGoesOn(q: char, s: string, c: nat, o: string, d: nat)
    requires InBody(q, s, c, o, d) && c < |s| && s[c] != q && !(q != '`' && s[c] == '\\')
    ensures d < |o| && o[d] == s[c] && InBody(q, s, c + 1, o, d + 1)
  {
    hide CopyBody, Closed, Aliased;
    BodyTurn(q, s[c..]);
    assert s[c..][1..] == s[c + 1..];
    var b := CopyBody(q, s[c + 1..]);
    assert o[d..] == [s[c]] + (b.0 + Aliased(s, c + 1 + b.1));
    assert o[d] == o[d..][0] && o[d + 1..] == o[d..][1..];
  }

  lemma BodyCloses(q: char, s: string, c: nat, o: string, d: nat)
    requires InBody(q, s, c, o, d) && c < |s| && s[c] == q && Quote(q)
    ensures d < |o| && o[d] == s[c] && InStep(s, c + 1, o, d + 1)
  {
    hide CopyBody, Closed, Aliased;
    BodyTurn(q, s[c..]);
    assert o[d] == o[d..][0] && o[d + 1..] == o[d..][1..];
  }

  /** A last backslash. */
  lemma BodyStops(q: char, s: string, c: nat, o: string, d: nat)
    requires InBody(q, s, c, o, d) && c + 1 == |s| && q != '`' && s[c] == '\\'
    ensures d + 1 == |o| && o[d] == '\\'
  {
    hide CopyBody, Closed, Aliased;
    BodyTurn(q, s[c..]);
    AliasedEnds(s);
    assert o[d..] == ['\\'];
    assert o[d] == o[d..][0];
  }

  /** How many backslashes stand for the one of an escape. */
  function Backslashes(e: char): nat { if e == '/' then 0 else if StandardEscape(e) then 1 else 2 }

  lemma BodyEscapes(q: char, s: string, c: nat, o: string, d: nat)
    requires InBody(q, s, c, o, d) && c + 1 < |s| && q != '`' && s[c] == '\\'
    ensures var k := Backslashes(s[c + 1]);
            d + k <= |o| && (k > 0 ==> o[d] == '\\') && (k > 1 ==> o[d + 1] == '\\') && InPair(q, s, c + 1, o, d + k)
  {
    hide CopyBody, Closed, Aliased, StandardEscape;
    var e := s[c + 1];
    var k := Backslashes(e);
    BodyTurn(q, s[c..]);
    assert s[c..][2..] == s[c + 2..] && s[c..][1] == e;
    var b := CopyBody(q, s[c + 2..]);
    var rest := b.0 + Aliased(s, c + 2 + b.1);
    assert o[d..] == Escaped(e) + rest;
    assert |o[d..]| == |o| - d && o[d + k] == o[d..][k] && o[d + k + 1..] == o[d..][k + 1..] == rest;
    if k > 0 { assert o[d] == o[d..][0]; }
    if k > 1 { assert o[d + 1] == o[d..][1]; }
  }

  lemma {:induction false} BodyWord(q: char, s: string, c: nat, o: string, d: nat)
    requires InBody(q, s, c, o, d) && Quote(q)
    ensures var e, f := SpanEnd(s, c, false), SpanEnd(o, d, false); s[c..e] == o[d..f] && InBody(q, s, e, o, f)
    decreases |s| - c
  {
    hide InBody, LabelRest;
    BodyEnd(q, s, c, o, d);
    InBodyBounds(q, s, c, o, d);
    if c < |s| {
      if SpanChar(s[c], false) {
        WordNoQuote(s[c], false);
        BodyGoesOn(q, s, c, o, d);
        BodyWord(q, s, c + 1, o, d + 1);
        SameTail(s, c, SpanEnd(s, c + 1, false), o, d, SpanEnd(o, d + 1, false));
      } else {
        BodyStopsWord(q, s, c, o, d);
      }
    }
  }

  lemma InBodyBounds(q: char, s: string, c: nat, o: string, d: nat)
    requires InBody(q, s, c, o, d)
    ensures c <= |s| && d <= |o|
  {
  }

  lemma SameTail(s: string, c: nat, e: nat, o: string, d: nat, f: nat)
    requires c < e <= |s| && d < f <= |o| && s[c] == o[d] && s[c + 1..e] == o[d + 1..f]
    ensures s[c..e] == o[d..f]
  {
    assert s[c..e] == [s[c]] + s[c + 1..e] && o[d..f] == [o[d]] + o[d + 1..f];
  }

  /** Where a word stops in one, it stops in the other. */
  lemma BodyStopsWord(q: char, s: string, c: nat, o: string, d: nat)
    requires InBody(q, s, c, o, d) && Quote(q) && c < |s| && !SpanChar(s[c], false)
    ensures d < |o| && !SpanChar(o[d], false)
  {
    hide InBody, StandardEscape;
    if q != '`' && s[c] == '\\' {
      if c + 1 == |s| {
        BodyStops(q, s, c, o, d);
      } else {
        BodyEscapes(q, s, c, o, d);
      }
    } else if s[c] == q {
      BodyCloses(q, s, c, o, d);
    } else {
      BodyGoesOn(q, s, c, o, d);
    }
  }

  // ------------------------------------------------------------------- clauses

  /** The text in state `st` and its aliased form in state `so`, in step. */
  predicate Along(s: string, c: nat, st: Lex, o: string, d: nat, so: Lex) {
    match st
    case Code => so == Code && InStep(s, c, o, d)
    case Body(q) => Quote(q) && so == st && InBody(q, s, c, o, d)
    case Pair(q) => Quote(q) && q != '`' && InPair(q, s, c, o, d) && so == if StandardEscape(s[c]) then st else Body(q)
  }

  /** The rest of a clause, in both: dotted labels stand outside literals in both or neither;
      it ends outside literals in both or neither, and then they are in step; nothing follows
      it in both or neither. */
  predicate SameClause(s: string, c: nat, st: Lex, o: string, d: nat, so: Lex)
    requires c <= |s| && d <= |o|
  {
    var e, f := GroupEnd(s, c), GroupEnd(o, d);
    && (Outside(s, c, st) <==> Outside(o, d, so)) && (e == |s| <==> f == |o|)
    && (After(st, s[c..e]).Code? <==> After(so, o[d..f]).Code?)
    && (After(st, s[c..e]).Code? ==> InStep(s, e, o, f))
  }

  /** One turn of a clause. */
  lemma TurnOf(s: string, c: nat, st: Lex)
    requires c < |s| && s[c] != ')'
    ensures var n := GroupNext(s, c);
            var mid := After(st, s[c..n]);
            && GroupEnd(s, c) == GroupEnd(s, n)
            && (Outside(s, c, st) <==> (LabelFirst(s[c]) && '.' in s[c..n] ==> st.Code?) && Outside(s, n, mid))
            && After(st, s[c..GroupEnd(s, c)]) == After(mid, s[n..GroupEnd(s, n)])
  {
    hide GroupNext, After, LabelFirst;
    var n := GroupNext(s, c);
    GroupEndTurn(s, c);
    Parts(s, c, n, GroupEnd(s, n));
    LexJoin(st, s[c..n], s[n..GroupEnd(s, n)]);
  }

  /** One turn in both. */
  lemma BothTurn(s: string, c: nat, st: Lex, o: string, d: nat, so: Lex)
    requires c < |s| && d < |o| && s[c] != ')' && o[d] != ')'
    requires (LabelFirst(s[c]) && '.' in s[c..GroupNext(s, c)] ==> st.Code?) <==> (LabelFirst(o[d]) && '.' in o[d..GroupNext(o, d)] ==> so.Code?)
    requires SameClause(s, GroupNext(s, c), After(st, s[c..GroupNext(s, c)]), o, GroupNext(o, d), After(so, o[d..GroupNext(o, d)]))
    ensures SameClause(s, c, st, o, d, so)
  {
    hide GroupNext, After, LabelFirst, GroupEnd, Outside, InStep;
    TurnOf(s, c, st);
    TurnOf(o, d, so);
  }

  /** One character that is neither a parenthesis nor a letter. */
  lemma OneTurn(s: string, c: nat, st: Lex)
    requires c < |s| && !LabelFirst(s[c])
    ensures GroupNext(s, c) == c + 1 && After(st, s[c..c + 1]) == Next(st, s[c])
  {
    hide After;
    assert s[c..c + 1] == [s[c]];
    LexOne(st, s[c]);
  }

  lemma BothPlain(s: string, c: nat, st: Lex, o: string, d: nat, so: Lex)
    requires c < |s| && d < |o| && s[c] != ')' && o[d] != ')' && !LabelFirst(s[c]) && !LabelFirst(o[d])
    requires SameClause(s, c + 1, Next(st, s[c]), o, d + 1, Next(so, o[d]))
    ensures SameClause(s, c, st, o, d, so)
  {
    hide SameClause, LabelFirst, Next, GroupNext;
    OneTurn(s, c, st);
    OneTurn(o, d, so);
    BothTurn(s, c, st, o, d, so);
  }

  /** One more character in the aliased form only. */
  lemma OnlyAliased(s: string, c: nat, st: Lex, o: string, d: nat, so: Lex)
    requires c <= |s| && d < |o| && o[d] != ')' && !LabelFirst(o[d]) && SameClause(s, c, st, o, d + 1, Next(so, o[d]))
    ensures SameClause(s, c, st, o, d, so)
  {
    hide GroupNext, After, LabelFirst, GroupEnd, Outside, InStep, Next;
    OneTurn(o, d, so);
    TurnOf(o, d, so);
  }

  /** One more character in the text only. */
  lemma OnlyText(s: string, c: nat, st: Lex, o: string, d: nat, so: Lex)
    requires c < |s| && d <= |o| && s[c] != ')' && !LabelFirst(s[c]) && SameClause(s, c + 1, Next(st, s[c]), o, d, so)
    ensures SameClause(s, c, st, o, d, so)
  {
    hide GroupNext, After, LabelFirst, GroupEnd, Outside, InStep, Next;
    OneTurn(s, c, st);
    TurnOf(s, c, st);
  }

  lemma BothEnd(s: string, st: Lex, o: string, so: Lex)
    requires (st.Code? <==> so.Code?) && (st.Code? ==> InStep(s, |s|, o, |o|))
    ensures SameClause(s, |s|, st, o, |o|, so)
  {
    assert s[|s|..|s|] == [] && o[|o|..|o|] == [];
  }

  lemma BothClose(s: string, c: nat, st: Lex, o: string, d: nat, so: Lex)
    requires c < |s| && d < |o| && s[c] == ')' && o[d] == ')' && (c + 1 == |s| <==> d + 1 == |o|)
    requires (Next(st, ')').Code? <==> Next(so, ')').Code?) && (Next(st, ')').Code? ==> InStep(s, c + 1, o, d + 1))
    ensures SameClause(s, c, st, o, d, so)
  {
    hide After, InStep, Next;
    assert s[c..c + 1] == [')'] && o[d..d + 1] == [')'];
    LexOne(st, ')');
    LexOne(so, ')');
  }

  /** A word inside a literal. */
  lemma {:induction false} WordInBody(q: char, w: string)
    requires Quote(q) && Word(w, true)
    ensures After(Body(q), w) == Body(q)
    decreases |w|
  {
    if w != [] { WordInBody(q, w[1..]); }
  }

  lemma {:induction false} StepClause(s: string, c: nat, st: Lex, o: string, d: nat, so: Lex)
    requires c <= |s| && d <= |o| && Along(s, c, st, o, d, so)
    ensures SameClause(s, c, st, o, d, so)
    decreases |s| - c, 2
  {
    hide SameClause, InStep, InBody, InPair, LabelFirst, Quote, StandardEscape, SpanEnd, GroupNext, Next;
    match st {
      case Code => {
        StepEnd(s, c, o, d);
        if c == |s| { BothEnd(s, st, o, so); } else { StepInCode(s, c, o, d); }
      }
      case Body(q) => {
        BodyEnd(q, s, c, o, d);
        if c == |s| { BothEnd(s, st, o, so); } else { StepInBody(q, s, c, o, d); }
      }
      case Pair(q) => StepInPair(q, s, c, o, d, so);
    }
  }

  lemma StepInCode(s: string, c: nat, o: string, d: nat)
    requires c < |s| && d < |o| && InStep(s, c, o, d)
    ensures SameClause(s, c, Code, o, d, Code)
    decreases |s| - c, 1
  {
    hide *;
    StartClass(s, c, o, d);
    MarkIsPlain();
    CodeNext(s[c]);
    if Quote(s[c]) {
      IntoBody(s, c, o, d);
      QuoteIsPlain(s[c]);
      AlongBody(s[c], s, c + 1, o, d + 1);
      StepClause(s, c + 1, Body(s[c]), o, d + 1, Body(s[c]));
      BothPlain(s, c, Code, o, d, Code);
    } else if LabelFirst(s[c]) {
      StepLabel(s, c, o, d);
    } else {
      StepMark(s, c, o, d);
      if s[c] == ')' {
        StepEnd(s, c + 1, o, d + 1);
        BothClose(s, c, Code, o, d, Code);
      } else {
        AlongCode(s, c + 1, o, d + 1);
        StepClause(s, c + 1, Code, o, d + 1, Code);
        BothPlain(s, c, Code, o, d, Code);
      }
    }
  }

  lemma AlongCode(s: string, c: nat, o: string, d: nat)
    ensures InStep(s, c, o, d) ==> c <= |s| && d <= |o| && Along(s, c, Code, o, d, Code)
  {
    hide Aliased;
  }

  lemma AlongBody(q: char, s: string, c: nat, o: string, d: nat)
    ensures Quote(q) && InBody(q, s, c, o, d) ==> c <= |s| && d <= |o| && Along(s, c, Body(q), o, d, Body(q))
  {
    hide Aliased, CopyBody, Quote;
  }

  lemma CodeNext(x: char)
    ensures if Quote(x) then Next(Code, x) == Body(x) else Next(Code, x) == Code
  {
  }

  lemma QuoteIsPlain(q: char)
    requires Quote(q)
    ensures !LabelFirst(q) && q != ')' && q != '\\'
  {
  }

  lemma StepLabel(s: string, c: nat, o: string, d: nat)
    requires c < |s| && d < |o| && InStep(s, c, o, d) && LabelFirst(s[c]) && LabelFirst(o[d])
    ensures SameClause(s, c, Code, o, d, Code)
    decreases |s| - c, 0
  {
    hide *;
    LabelNext(s, c);
    LabelNext(o, d);
    StepToken(s, c, o, d, false);
    var e, f := GroupNext(s, c), GroupNext(o, d);
    SameWordIs(s[c..e], o[d..f]);
    WordCode(s, c);
    WordCode(o, d);
    AlongCode(s, e, o, f);
    StepClause(s, e, Code, o, f, Code);
    BothTurn(s, c, Code, o, d, Code);
  }

  lemma LabelNext(s: string, c: nat)
    requires c < |s| && LabelFirst(s[c])
    ensures GroupNext(s, c) == SpanEnd(s, c + 1, false) && s[c] != ')' && SpanChar(s[c], false) && !Quote(s[c]) && s[c] != '\\'
  {
    hide SpanEnd;
  }

  lemma SameWordIs(v: string, w: string)
    requires SameWord(v, w)
    ensures ('.' in v <==> '.' in w) && (GroupingKeyword(v) <==> GroupingKeyword(w))
  {
    hide GroupingKeyword;
    SameWordKeyword(v, w);
  }

  lemma WordCode(s: string, c: nat)
    requires c < |s| && LabelFirst(s[c])
    ensures After(Code, s[c..GroupNext(s, c)]) == Code
  {
    hide LabelFirst, SpanEnd, Word, After;
    NameIsWord(s, c, false);
    WordUnquoted(s[c..GroupNext(s, c)]);
    PlainCode(s[c..GroupNext(s, c)]);
  }

  lemma StepInBody(q: char, s: string, c: nat, o: string, d: nat)
    requires c < |s| && d < |o| && Quote(q) && InBody(q, s, c, o, d)
    ensures SameClause(s, c, Body(q), o, d, Body(q))
    decreases |s| - c, 1
  {
    hide *;
    QuoteIsPlain(q);
    BodyNext(q, s[c]);
    MarkIsPlain();
    if q != '`' && s[c] == '\\' {
      StepEscape(q, s, c, o, d);
    } else if s[c] == q {
      BodyCloses(q, s, c, o, d);
      AlongCode(s, c + 1, o, d + 1);
      StepClause(s, c + 1, Code, o, d + 1, Code);
      BothPlain(s, c, Body(q), o, d, Body(q));
    } else {
      BodyGoesOn(q, s, c, o, d);
      if LabelFirst(s[c]) {
        StepBodyLabel(q, s, c, Body(q), o, d, Body(q));
      } else if s[c] == ')' {
        BodyEnd(q, s, c + 1, o, d + 1);
        BothClose(s, c, Body(q), o, d, Body(q));
      } else {
        AlongBody(q, s, c + 1, o, d + 1);
        StepClause(s, c + 1, Body(q), o, d + 1, Body(q));
        BothPlain(s, c, Body(q), o, d, Body(q));
      }
    }
  }

  lemma BodyNext(q: char, x: char)
    ensures Next(Body(q), x) == if q != '`' && x == '\\' then Pair(q) else if x == q then Code else Body(q)
    ensures Next(Pair(q), x) == Body(q)
    ensures Code.Code? && !Body(q).Code?
  {
  }

  /** A label that starts inside a literal, or behind a backslash in it. */
  lemma StepBodyLabel(q: char, s: string, c: nat, st: Lex, o: string, d: nat, so: Lex)
    requires c < |s| && d < |o| && Quote(q) && LabelFirst(s[c]) && o[d] == s[c] && s[c] != q
    requires (st == Body(q) || st == Pair(q)) && (so == Body(q) || so == Pair(q)) && InBody(q, s, c + 1, o, d + 1)
    ensures SameClause(s, c, st, o, d, so)
    decreases |s| - c, 0
  {
    hide *;
    LabelNext(s, c);
    LabelNext(o, d);
    BodyWord(q, s, c + 1, o, d + 1);
    var e, f := GroupNext(s, c), GroupNext(o, d);
    SameTail(s, c, e, o, d, f);
    LabelAfter(q, s, c, st);
    LabelAfter(q, o, d, so);
    AlongBody(q, s, e, o, f);
    StepClause(s, e, Body(q), o, f, Body(q));
    NotCode(q);
    BothTurn(s, c, st, o, d, so);
  }

  lemma NotCode(q: char)
    ensures !Body(q).Code? && !Pair(q).Code?
  {
  }

  lemma LabelAfter(q: char, s: string, c: nat, st: Lex)
    requires c < |s| && LabelFirst(s[c]) && Quote(q) && (st == Body(q) || st == Pair(q))
    ensures After(st, s[c..GroupNext(s, c)]) == Body(q)
  {
    hide SpanEnd, Word, After;
    var e := GroupNext(s, c);
    SpanIsWord(s, c + 1, false);
    LabelWord(s[c + 1..e]);
    WordInBody(q, s[c + 1..e]);
    assert s[c..e] == [s[c]] + s[c + 1..e];
    LexJoin(st, [s[c]], s[c + 1..e]);
    LexOne(st, s[c]);
  }

  /** A backslash in the text, and none, one or two in its aliased form. */
  lemma StepEscape(q: char, s: string, c: nat, o: string, d: nat)
    requires c < |s| && d < |o| && Quote(q) && InBody(q, s, c, o, d) && q != '`' && s[c] == '\\'
    ensures SameClause(s, c, Body(q), o, d, Body(q))
    decreases |s| - c, 0
  {
    hide *;
    BackslashIsPlain();
    BodyNext(q, '\\');
    if c + 1 == |s| {
      BodyStops(q, s, c, o, d);
      NotCode(q);
      BothEnd(s, Pair(q), o, Pair(q));
      BothPlain(s, c, Body(q), o, d, Body(q));
    } else {
      BodyEscapes(q, s, c, o, d);
      var k := Backslashes(s[c + 1]);
      var so := if StandardEscape(s[c + 1]) then Pair(q) else Body(q);
      AlongPair(q, s, c + 1, o, d + k, so);
      StepClause(s, c + 1, Pair(q), o, d + k, so);
      BackslashCount(s[c + 1]);
      if k == 0 {
        OnlyText(s, c, Body(q), o, d, Body(q));
      } else {
        if k == 2 { OnlyAliased(s, c + 1, Pair(q), o, d + 1, Pair(q)); }
        BothPlain(s, c, Body(q), o, d, Body(q));
      }
    }
  }

  lemma BackslashIsPlain()
    ensures !LabelFirst('\\') && '\\' != ')'
  {
  }

  lemma BackslashCount(e: char)
    ensures StandardEscape(e) <==> Backslashes(e) == 1
    ensures Backslashes(e) == 0 || Backslashes(e) == 1 || Backslashes(e) == 2
  {
  }

  lemma AlongPair(q: char, s: string, c: nat, o: string, d: nat, so: Lex)
    requires c < |s| && Quote(q) && q != '`' && InPair(q, s, c, o, d) && so == if StandardEscape(s[c]) then Pair(q) else Body(q)
    ensures d < |o| && Along(s, c, Pair(q), o, d, so)
  {
    hide InBody, StandardEscape, Quote;
  }

  lemma StepInPair(q: char, s: string, c: nat, o: string, d: nat, so: Lex)
    requires c <= |s| && d <= |o| && Along(s, c, Pair(q), o, d, so)
    ensures SameClause(s, c, Pair(q), o, d, so)
    decreases |s| - c, 1
  {
    hide *;
    PairIs(q, s, c, o, d, so);
    QuoteIsPlain(q);
    BodyNext(q, s[c]);
    NotCode(q);
    if LabelFirst(s[c]) {
      LabelNext(s, c);
      StepBodyLabel(q, s, c, Pair(q), o, d, so);
    } else if s[c] == ')' {
      BodyEnd(q, s, c + 1, o, d + 1);
      BothClose(s, c, Pair(q), o, d, so);
    } else {
      AlongBody(q, s, c + 1, o, d + 1);
      StepClause(s, c + 1, Body(q), o, d + 1, Body(q));
      BothPlain(s, c, Pair(q), o, d, so);
    }
  }

  lemma PairIs(q: char, s: string, c: nat, o: string, d: nat, so: Lex)
    requires Along(s, c, Pair(q), o, d, so)
    ensures Quote(q) && q != '`' && c < |s| && d < |o| && o[d] == s[c] && InBody(q, s, c + 1, o, d + 1)
    ensures (so == Pair(q) || so == Body(q)) && Next(so, s[c]) == Body(q) && (so == Body(q) ==> s[c] != q)
  {
    hide InBody;
  }

  // ------------------------------------------------------------- the whole text

  /** Where a turn of the OTLP pass goes on. */
  lemma EndCases(s: string, c: nat)
    requires c < |s|
    ensures Quote(s[c]) ==> !ClauseAt(s, c) && PieceEnd(s, c) == LiteralEnd(s, c)
    ensures !Quote(s[c]) && s[c] == '{' ==> !ClauseAt(s, c) && PieceEnd(s, c) == Matchers(s, c + 1).1
    ensures !Quote(s[c]) && s[c] != '{' && !MetricFirst(s[c]) ==> !ClauseAt(s, c) && PieceEnd(s, c) == c + 1
    ensures MetricFirst(s[c]) ==>
              var e := SpanEnd(s, c + 1, true);
              && LabelsAt(s, c) == GroupOpen(s, e)
              && ('.' in s[c..e] ==> !ClauseAt(s, c) && PieceEnd(s, c) == Dotted(s, e, s[c..e]).1)
              && ('.' !in s[c..e] && GroupingAt(s, c, e) ==> ClauseAt(s, c) && PieceEnd(s, c) == GroupEnd(s, GroupOpen(s, e)))
              && ('.' !in s[c..e] && !GroupingAt(s, c, e) ==> !ClauseAt(s, c) && PieceEnd(s, c) == e)
  {
    hide CopyBody, Matchers, Dotted, GroupEnd, GroupOpen, GroupingAt, SpanEnd;
  }

  /** A turn of the OTLP pass on both. */
  lemma StepPiece(s: string, c: nat, o: string, d: nat)
    requires InStep(s, c, o, d) && c < |s| && d < |o|
    ensures ClauseAt(s, c) <==> ClauseAt(o, d)
    ensures if ClauseAt(s, c) then SameClause(s, LabelsAt(s, c), Code, o, LabelsAt(o, d), Code)
            else InStep(s, PieceEnd(s, c), o, PieceEnd(o, d))
  {
    hide *;
    StartClass(s, c, o, d);
    EndCases(s, c);
    EndCases(o, d);
    if Quote(s[c]) {
      StepLiteral(s, c, o, d);
    } else if s[c] == '{' {
      MarkIsPlain();
      StepMark(s, c, o, d);
      StepMatchers(s, c + 1, o, d + 1);
    } else if MetricFirst(s[c]) {
      StepNamePiece(s, c, o, d);
    } else {
      MetricOrPlain(s[c]);
      StepMark(s, c, o, d);
    }
  }

  lemma MetricOrPlain(x: char)
    ensures !MetricFirst(x) ==> !LabelFirst(x)
    ensures MetricFirst(x) ==> SpanChar(x, true)
  {
  }

  lemma StepNamePiece(s: string, c: nat, o: string, d: nat)
    requires InStep(s, c, o, d) && c < |s| && d < |o| && MetricFirst(s[c]) && MetricFirst(o[d])
    ensures ClauseAt(s, c) <==> ClauseAt(o, d)
    ensures if ClauseAt(s, c) then SameClause(s, LabelsAt(s, c), Code, o, LabelsAt(o, d), Code)
            else InStep(s, PieceEnd(s, c), o, PieceEnd(o, d))
  {
    hide *;
    EndCases(s, c);
    EndCases(o, d);
    MetricOrPlain(s[c]);
    StepToken(s, c, o, d, true);
    var e, f := SpanEnd(s, c + 1, true), SpanEnd(o, d + 1, true);
    SameWordIs(s[c..e], o[d..f]);
    StepDotted(s, e, o, f, s[c..e], o[d..f]);
    GroupingIs(s, c, e);
    GroupingIs(o, d, f);
    StepSpaces(s, e, o, f);
    SameCharAt(s, SkipSpace(s, e), o, SkipSpace(o, f));
    if CharAt(s, SkipSpace(s, e), '(') { StepOpenClause(s, e, o, f); }
  }

  lemma StepOpenClause(s: string, e: nat, o: string, f: nat)
    requires e <= |s| && f <= |o| && CharAt(s, SkipSpace(s, e), '(') && CharAt(o, SkipSpace(o, f), '(')
    requires InStep(s, SkipSpace(s, e), o, SkipSpace(o, f))
    ensures SameClause(s, GroupOpen(s, e), Code, o, GroupOpen(o, f), Code)
  {
    hide *;
    var k, l := SkipSpace(s, e), SkipSpace(o, f);
    BraceIsAt(s, k);
    BraceIsAt(o, l);
    OpenIsNext(s, e);
    OpenIsNext(o, f);
    MarkIsPlain();
    StepMark(s, k, o, l);
    AlongCode(s, k + 1, o, l + 1);
    StepClause(s, k + 1, Code, o, l + 1, Code);
  }

  lemma {:induction false} StepAligned(s: string, c: nat, o: string, d: nat)
    requires InStep(s, c, o, d) && c <= |s| && d <= |o|
    ensures Aligned(s, c) <==> Aligned(o, d)
    ensures Aligned(s, c) ==> (DotsOutside(s, c) <==> DotsOutside(o, d))
    decreases |s| - c
  {
    hide InStep, PieceEnd, ClauseAt, LabelsAt, After, GroupEnd, Outside, SameClause;
    StepEnd(s, c, o, d);
    if c < |s| {
      StepPiece(s, c, o, d);
      var e, f := PieceEnd(s, c), PieceEnd(o, d);
      if ClauseAt(s, c) {
        ClauseEdits(s, c);
        ClauseEdits(o, d);
        SameClauseIs(s, LabelsAt(s, c), o, LabelsAt(o, d));
      }
      if ClauseAligned(s, c) {
        if InStep(s, e, o, f) { StepAligned(s, e, o, f); } else { NothingFollows(s); NothingFollows(o); }
      }
    }
  }

  lemma SameClauseIs(s: string, c: nat, o: string, d: nat)
    requires c <= |s| && d <= |o| && SameClause(s, c, Code, o, d, Code)
    ensures var e, f := GroupEnd(s, c), GroupEnd(o, d);
            && (Outside(s, c, Code) <==> Outside(o, d, Code)) && (e == |s| <==> f == |o|)
            && (After(Code, s[c..e]) == Code <==> After(Code, o[d..f]) == Code)
            && (After(Code, s[c..e]) == Code ==> InStep(s, e, o, f))
  {
    hide InStep, After, GroupEnd, Outside;
  }

  lemma NothingFollows(s: string)
    ensures Aligned(s, |s|) && DotsOutside(s, |s|)
  {
  }

  /** The alias pass moves no end of a clause into a literal or out of one; where there is
      none, it moves no dotted label of a clause into a literal or out of one. */
  lemma AliasKeepsClauses(s: string)
    ensures Aligned(Aliased(s, 0), 0) <==> Aligned(s, 0)
    ensures Aligned(s, 0) ==> (DotsOutside(Aliased(s, 0), 0) <==> DotsOutside(s, 0))
  {
    hide Aliased, Aligned, DotsOutside;
    var o := Aliased(s, 0);
    assert o[0..] == o;
    StepAligned(s, 0, o, 0);
  }

  // ------------------------------------------------------------- both passes

  /** For every query: the tokens below, without the names that the OTLP pass quotes, are
      what the literals of the query spell; after both passes the literals are these tokens
      if and only if no edit of the OTLP pass falls into a literal of what the alias pass has
      written; and then every escape in them is standard. */
  lemma LiteralsSurvive(s: string, hex: string -> string)
    requires Fingerprints(hex)
    ensures var x := Aliased(s, 0);
            var gs := OtlpEdits(x, 0);
            && Woven(gs, Code, false) == Spells(Code, s)
            && (Spells(Code, Otlp(x, 0, hex)) == Woven(gs, Code, true) <==> Kept(gs, Code))
            && (Kept(gs, Code) ==> Standard(Code, Otlp(x, 0, hex)))
  {
    hide Fingerprints, Aliased, OtlpEdits, Otlp, Woven, Spells, Kept, Standard;
    OtlpLiterals(Aliased(s, 0), hex);
    AliasSpells(s, 0);
    assert s[0..] == s;
  }

  /** For every query whose grouping clauses do not end inside literals: its literals survive
      both passes, with standard escapes, if and only if no literal in a grouping clause holds
      a dotted label. */
  lemma SurviveIff(s: string, hex: string -> string)
    requires Fingerprints(hex) && Aligned(s, 0)
    ensures var x := Aliased(s, 0);
            var gs := OtlpEdits(x, 0);
            && (Spells(Code, Otlp(x, 0, hex)) == Woven(gs, Code, true) <==> DotsOutside(s, 0))
            && (DotsOutside(s, 0) ==> Standard(Code, Otlp(x, 0, hex)))
  {
    hide Fingerprints, Aliased, OtlpEdits, Otlp, Woven, Spells, Kept, Standard, Aligned, DotsOutside;
    LiteralsSurvive(s, hex);
    AliasKeepsClauses(s);
    KeptIffOutside(Aliased(s, 0), 0);
  }
}
