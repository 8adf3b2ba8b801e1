/** Grouping clauses and literals: where no clause ends inside a literal, the literals
    survive the OTLP pass if and only if no literal in a clause holds a dotted label. */
module PromqlClauses {
  import opened PromqlText
  import opened PromqlRewrite
  import opened PromqlOtlpAgain
  import opened PromqlLexer
  import opened PromqlEdits
  import opened PromqlLiterals

  /** A turn of the pass that rewrites a grouping clause. */
  predicate ClauseAt(s: string, c: nat)
    requires c < |s|
  {
    MetricFirst(s[c]) && '.' !in s[c..SpanEnd(s, c + 1, true)] && GroupingAt(s, c, SpanEnd(s, c + 1, true))
  }

  /** Behind the opening parenthesis of this clause. */
  function LabelsAt(s: string, c: nat): (open: nat)
    requires c < |s|
    ensures c < open <= |s|
  {
    GroupOpen(s, SpanEnd(s, c + 1, true))
  }

  /** The dotted labels of a clause, from `c` on, stand outside literals. */
  predicate Outside(s: string, c: nat, st: Lex)
    requires c <= |s|
    decreases |s| - c
  {
    || c == |s| || s[c] == ')'
    || (var n := GroupNext(s, c);
        (LabelFirst(s[c]) && '.' in s[c..n] ==> st.Code?) && Outside(s, n, After(st, s[c..n])))
  }

  /** No grouping clause that the pass meets has a literal with a dotted label. */
  predicate DotsOutside(s: string, c: nat)
    requires c <= |s|
    decreases |s| - c
  {
    c == |s| || ((ClauseAt(s, c) ==> Outside(s, LabelsAt(s, c), Code)) && DotsOutside(s, PieceEnd(s, c)))
  }

  /** The parenthesis that ends this clause stands outside literals, or ends the text. */
  predicate ClauseAligned(s: string, c: nat)
    requires c < |s|
  {
    ClauseAt(s, c) ==>
      var open := LabelsAt(s, c);
      var e := GroupEnd(s, open);
      e == |s| || After(Code, s[open..e]) == Code
  }

  /** No grouping clause that the pass meets ends inside a literal. */
  predicate Aligned(s: string, c: nat)
    requires c <= |s|
    decreases |s| - c
  {
    c == |s| || (ClauseAligned(s, c) && Aligned(s, PieceEnd(s, c)))
  }

  // --------------------------------------------------------------- other turns

  lemma {:induction false} KeptJoin(a: seq<Edit>, b: seq<Edit>, st: Lex)
    ensures Kept(a + b, st) <==> Kept(a, st) && Kept(b, After(st, Olds(a)))
    decreases |a|
  {
    hide KeptOne, After, Old;
    if a == [] {
      assert a + b == b;
      LexNone(st);
    } else {
      assert (a + b)[1..] == a[1..] + b && (a + b)[0] == a[0];
      KeptJoin(a[1..], b, After(st, Old(a[0])));
      LexJoin(st, Old(a[0]), Olds(a[1..]));
    }
  }

  lemma KeptSingle(g: Edit, st: Lex)
    ensures Kept([g], st) <==> KeptOne(g, st)
  {
    hide KeptOne, After, Old;
    assert [g][1..] == [];
  }

  lemma {:induction false} BodySafe(q: char, s: string)
    requires Quote(q)
    ensures Kept(BodyEdits(q, s), Body(q))
    decreases |s|
  {
    hide After, Old, StandardEscape, Quote, Kept, KeptOne;
    if s == [] {
      assert Kept([], Body(q)) by { NoneKept(Body(q)); }
    } else if q != '`' && s[0] == '\\' {
      if |s| == 1 {
        NoneKept(After(Body(q), s));
        KeepIsKept(s, Body(q), []);
        assert [Keep(s)] + [] == [Keep(s)];
      } else {
        BodySafe(q, s[2..]);
        EscapeReads(q, s[1]);
        EscapeIsKept(q, s[1], BodyEdits(q, s[2..]));
      }
    } else if s[0] == q {
      NoneKept(After(Body(q), [q]));
      KeepIsKept([q], Body(q), []);
      assert [Keep([q])] + [] == [Keep([q])];
    } else {
      BodySafe(q, s[1..]);
      LexOne(Body(q), s[0]);
      KeepIsKept([s[0]], Body(q), BodyEdits(q, s[1..]));
    }
  }

  lemma NoneKept(st: Lex)
    ensures Kept([], st)
  {
  }

  lemma KeepIsKept(t: string, st: Lex, b: seq<Edit>)
    requires Kept(b, After(st, t))
    ensures Kept([Keep(t)] + b, st)
  {
    hide After;
    assert ([Keep(t)] + b)[1..] == b;
  }

  lemma EscapeIsKept(q: char, e: char, b: seq<Edit>)
    requires q != '`' && After(Body(q), ['\\', e]) == Body(q) && Kept(b, Body(q))
    ensures Kept([if StandardEscape(e) then Keep(['\\', e]) else Escape(e)] + b, Body(q))
  {
    hide After, StandardEscape;
    var g := if StandardEscape(e) then Keep(['\\', e]) else Escape(e);
    assert ([g] + b)[1..] == b;
  }

  /** These edits of `s[c..n]`, outside literals, are kept, and the text goes on outside
      literals or not at all. */
  predicate Safe(gs: seq<Edit>, s: string, c: nat, n: nat)
    requires c <= n <= |s|
  {
    Kept(gs, Code) && (n == |s| || After(Code, s[c..n]) == Code)
  }

  lemma SafeJoin(a: seq<Edit>, b: seq<Edit>, s: string, c: nat, n: nat, e: nat)
    requires c <= n <= e <= |s| && Safe(a, s, c, n) && Olds(a) == s[c..n] && (n == |s| ==> b == []) && Safe(b, s, n, e)
    ensures Safe(a + b, s, c, e)
  {
    hide Kept, After, Olds;
    KeptJoin(a, b, Code);
    NoneKept(After(Code, s[c..n]));
    LexJoin(Code, s[c..n], s[n..e]);
    Parts(s, c, n, e);
  }

  lemma SafeOne(g: Edit, s: string, c: nat, n: nat)
    requires c <= n <= |s| && NoQuotes(s[c..n])
    ensures Safe([g], s, c, n)
  {
    hide Kept, After, NoQuotes;
    KeptSingle(g, Code);
    PlainCode(s[c..n]);
  }

  lemma LiteralSafe(s: string, c: nat)
    requires c < |s| && Quote(s[c])
    ensures Safe(LiteralEdits(s, c), s, c, c + 1 + CopyBody(s[c], s[c + 1..]).1)
  {
    hide Kept, After, CopyBody, Closed, Quote, BodyEdits;
    var q, t := s[c], s[c + 1..];
    var n := CopyBody(q, t).1;
    BodySafe(q, t);
    LexOne(Code, q);
    assert Next(Code, q) == Body(q) by { OpensBody(q); }
    KeepIsKept([q], Code, BodyEdits(q, t));
    BodySame(q, t);
    if !Closed(q, t) { OpenTakesAll(q, t); }
    LexJoin(Code, [q], t[..n]);
    assert s[c..c + 1 + n] == [q] + t[..n];
  }

  lemma OpensBody(q: char)
    requires Quote(q)
    ensures Next(Code, q) == Body(q)
  {
  }

  lemma MatcherSafe(s: string, c: nat)
    requires c < |s| && s[c] != '}'
    ensures Safe(MatcherEdits(s, c), s, c, MatcherPiece(s, c).1)
  {
    hide Safe, CopyBody, MatcherEvent, Quoted, LiteralEdits, LabelFirst, SpanEnd, Word, NoQuotes, Quote;
    if Quote(s[c]) {
      LiteralSafe(s, c);
    } else if LabelFirst(s[c]) {
      var end := SpanEnd(s, c + 1, false);
      NameIsWord(s, c, false);
      WordUnquoted(s[c..end]);
      SafeOne(if MatcherEvent(s, c, end) then Matcher(s[c..end]) else Keep(s[c..end]), s, c, end);
    } else {
      OneUnquoted(s, c);
      SafeOne(Keep([s[c]]), s, c, c + 1);
    }
  }

  lemma OneUnquoted(s: string, c: nat)
    requires c < |s| && !Quote(s[c])
    ensures NoQuotes(s[c..c + 1])
  {
  }

  lemma {:induction false} MatchersSafe(s: string, c: nat)
    requires c <= |s|
    ensures Safe(MatchersEdits(s, c), s, c, Matchers(s, c).1)
    decreases |s| - c
  {
    hide Safe, MatcherPiece, MatcherEdits, Olds, Quote;
    if c == |s| {
      assert Safe([], s, c, c) by { NothingSafe(s); }
    } else if s[c] == '}' {
      BracesUnquoted();
      OneUnquoted(s, c);
      SafeOne(Keep("}"), s, c, c + 1);
    } else {
      var n := MatcherPiece(s, c).1;
      MatcherSafe(s, c);
      MatchersSafe(s, n);
      MatcherOlds(s, c);
      SafeJoin(MatcherEdits(s, c), MatchersEdits(s, n), s, c, n, Matchers(s, n).1);
    }
  }

  lemma NothingSafe(s: string)
    ensures Safe([], s, |s|, |s|)
  {
  }

  lemma MatcherOlds(s: string, c: nat)
    requires c < |s| && s[c] != '}'
    ensures Olds(MatcherEdits(s, c)) == s[c..MatcherPiece(s, c).1]
  {
    hide MatcherEdits, MatcherPiece, Olds;
    MatcherTurns(s, c, v => v);
  }

  lemma DottedSafe(s: string, c: nat, end: nat, name: string)
    requires c < end <= |s| && s[c..end] == name && DottedName(name)
    ensures Safe(DottedEdits(s, end, name), s, c, Dotted(s, end, name).1)
  {
    hide Safe, NamePrefix, Matchers, MatchersEdits, SkipSpace, CharAt, NoQuotes, DottedName, Quote;
    var k := SkipSpace(s, end);
    NameUnquoted(name);
    BracesUnquoted();
    if !MetricEvent(s, end) {
      SafeOne(Keep(name), s, c, end);
    } else if CharAt(s, k, '{') {
      SpaceThen(s, end, '{');
      UnquotedJoin(name, s[end..k + 1]);
      Parts(s, c, end, k + 1);
      var a := SkipSpace(s, k + 1);
      if CharAt(s, a, '}') {
        SpaceThen(s, k + 1, '}');
        UnquotedJoin(s[c..k + 1], s[k + 1..a + 1]);
        Parts(s, c, k + 1, a + 1);
        SafeOne(Metric(name, s[end..a + 1], '}'), s, c, a + 1);
      } else {
        MetricThen(s, c, end, k + 1, name);
      }
    } else {
      SafeOne(Metric(name, "", '}'), s, c, end);
    }
  }

  lemma NameUnquoted(name: string)
    requires DottedName(name)
    ensures NoQuotes(name)
  {
    hide Word;
    WordUnquoted(name);
  }

  lemma MetricThen(s: string, c: nat, end: nat, k: nat, name: string)
    requires c < end <= k <= |s| && s[c..end] == name && NoQuotes(s[c..k])
    ensures Safe([Metric(name, s[end..k], ',')] + MatchersEdits(s, k), s, c, Matchers(s, k).1)
  {
    hide Safe, Matchers, MatchersEdits, NoQuotes, Old;
    var g := Metric(name, s[end..k], ',');
    SafeOne(g, s, c, k);
    MatchersSafe(s, k);
    assert Olds([g]) == s[c..k] by { MetricOlds(s, c, end, k, name); }
    assert k == |s| ==> MatchersEdits(s, k) == [] by { NoMatchers(s); }
    SafeJoin([g], MatchersEdits(s, k), s, c, k, Matchers(s, k).1);
  }

  lemma MetricOlds(s: string, c: nat, end: nat, k: nat, name: string)
    requires c < end <= k <= |s| && s[c..end] == name
    ensures Olds([Metric(name, s[end..k], ',')]) == s[c..k]
  {
    var g := Metric(name, s[end..k], ',');
    assert [g][1..] == [];
    assert Olds([g]) == Old(g) + [];
    Parts(s, c, end, k);
  }

  lemma NoMatchers(s: string)
    ensures MatchersEdits(s, |s|) == []
  {
  }

  /** Every turn that rewrites no clause. */
  lemma TurnSafe(s: string, c: nat)
    requires c < |s| && !ClauseAt(s, c)
    ensures Safe(PieceEdits(s, c), s, c, PieceEnd(s, c))
  {
    hide *;
    EditCases(s, c);
    if Quote(s[c]) {
      LiteralSafe(s, c);
    } else if s[c] == '{' {
      BraceSafe(s, c);
    } else if MetricFirst(s[c]) {
      NameSafe(s, c);
    } else {
      OneUnquoted(s, c);
      SafeOne(Keep([s[c]]), s, c, c + 1);
    }
  }

  lemma BraceSafe(s: string, c: nat)
    requires c < |s| && s[c] == '{'
    ensures Safe([Keep("{")] + MatchersEdits(s, c + 1), s, c, Matchers(s, c + 1).1)
  {
    hide Safe, Matchers, MatchersEdits;
    OneUnquoted(s, c);
    SafeOne(Keep("{"), s, c, c + 1);
    MatchersSafe(s, c + 1);
    NoMatchers(s);
    assert [Keep("{")][1..] == [] && Olds([Keep("{")]) == s[c..c + 1];
    SafeJoin([Keep("{")], MatchersEdits(s, c + 1), s, c, c + 1, Matchers(s, c + 1).1);
  }

  lemma NameSafe(s: string, c: nat)
    requires c < |s| && MetricFirst(s[c]) && !ClauseAt(s, c)
    ensures Safe(PieceEdits(s, c), s, c, PieceEnd(s, c))
  {
    hide Safe, MetricFirst, SpanEnd, Dotted, DottedEdits, DottedName, GroupEdits, GroupingAt, GroupOpen, CopyBody, Matchers, GroupEnd,
         LiteralEdits, MatchersEdits, Word, NoQuotes;
    MetricIsNoQuote(s[c]);
    var end := SpanEnd(s, c + 1, true);
    if '.' in s[c..end] {
      NameIsDotted(s, c);
      DottedSafe(s, c, end, s[c..end]);
    } else {
      NameIsWord(s, c, true);
      WordUnquoted(s[c..end]);
      SafeOne(Keep(s[c..end]), s, c, end);
    }
  }

  // ------------------------------------------------------------------- clauses

  lemma {:induction false} GroupKeptIff(s: string, c: nat, st: Lex)
    requires c <= |s|
    ensures Kept(GroupEdits(s, c), st) <==> Outside(s, c, st)
    decreases |s| - c
  {
    hide Kept, KeptOne, After, GroupEdit, GroupNext;
    if c == |s| {
      NoneKept(st);
    } else if s[c] == ')' {
      KeptSingle(Keep(")"), st);
      KeepOne(")", st);
    } else {
      var n := GroupNext(s, c);
      var g := GroupEdit(s, c);
      GroupKeptIff(s, n, After(st, s[c..n]));
      GroupEditIs(s, c, v => v);
      KeptTurn(g, GroupEdits(s, n), st);
      GroupEditKept(s, c, st);
    }
  }

  lemma KeepOne(t: string, st: Lex)
    ensures KeptOne(Keep(t), st)
  {
  }

  lemma KeptTurn(g: Edit, b: seq<Edit>, st: Lex)
    ensures Kept([g] + b, st) <==> KeptOne(g, st) && Kept(b, After(st, Old(g)))
  {
    hide KeptOne, After, Old;
    assert ([g] + b)[1..] == b;
  }

  lemma GroupEditKept(s: string, c: nat, st: Lex)
    requires c < |s|
    ensures KeptOne(GroupEdit(s, c), st) <==> (LabelFirst(s[c]) && '.' in s[c..GroupNext(s, c)] ==> st.Code?)
  {
    hide GroupNext, LabelFirst;
  }

  lemma ClauseEdits(s: string, c: nat)
    requires c < |s| && ClauseAt(s, c)
    ensures PieceEdits(s, c) == [Keep(s[c..LabelsAt(s, c)])] + GroupEdits(s, LabelsAt(s, c)) && PieceEnd(s, c) == GroupEnd(s, LabelsAt(s, c))
  {
    hide MetricFirst, SpanEnd, Dotted, DottedEdits, GroupEdits, GroupingAt, GroupOpen, CopyBody, Matchers, GroupEnd, LiteralEdits, MatchersEdits;
    MetricIsNoQuote(s[c]);
  }

  /** No quote comes between the keyword and the labels. */
  lemma KeywordPlain(s: string, c: nat)
    requires c < |s| && ClauseAt(s, c)
    ensures NoQuotes(s[c..LabelsAt(s, c)])
  {
    hide MetricFirst, SpanEnd, SkipSpace, GroupOpen, NoQuotes, GroupingKeyword, Word, Quote;
    var e := SpanEnd(s, c + 1, true);
    NameIsWord(s, c, true);
    WordUnquoted(s[c..e]);
    BracesUnquoted();
    SpaceThen(s, e, '(');
    OpenIsNext(s, e);
    UnquotedJoin(s[c..e], s[e..GroupOpen(s, e)]);
    Parts(s, c, e, GroupOpen(s, e));
  }

  /** A clause that does not end in a literal. */
  lemma ClauseKeptIff(s: string, c: nat)
    requires c < |s| && ClauseAt(s, c) && ClauseAligned(s, c)
    ensures Kept(PieceEdits(s, c), Code) <==> Outside(s, LabelsAt(s, c), Code)
    ensures PieceEnd(s, c) == |s| || After(Code, s[c..PieceEnd(s, c)]) == Code
  {
    hide Kept, After, ClauseAt, GroupEdits, GroupEnd, LabelsAt, Outside, PieceEdits, PieceEnd, NoQuotes;
    var open := LabelsAt(s, c);
    var e := GroupEnd(s, open);
    ClauseEdits(s, c);
    KeywordPlain(s, c);
    PlainCode(s[c..open]);
    GroupKeptIff(s, open, Code);
    KeptTurn(Keep(s[c..open]), GroupEdits(s, open), Code);
    KeepOne(s[c..open], Code);
    Parts(s, c, open, e);
    LexJoin(Code, s[c..open], s[open..e]);
  }

  // ------------------------------------------------------------- the whole text

  lemma PieceOlds(s: string, c: nat)
    requires c < |s|
    ensures Olds(PieceEdits(s, c)) == s[c..PieceEnd(s, c)]
  {
    hide PieceEdits, PieceEnd, Olds, OtlpPiece;
    PieceTurns(s, c, v => v);
  }

  lemma NoEdits(s: string)
    ensures OtlpEdits(s, |s|) == [] && DotsOutside(s, |s|)
  {
  }

  /** Where no clause ends inside a literal, the edits are kept if and only if no literal in
      a clause holds a dotted label. */
  lemma {:induction false} KeptIffOutside(s: string, c: nat)
    requires c <= |s| && Aligned(s, c)
    ensures Kept(OtlpEdits(s, c), Code) <==> DotsOutside(s, c)
    decreases |s| - c
  {
    hide Kept, After, PieceEdits, PieceEnd, ClauseAt, ClauseAligned, Outside, LabelsAt;
    NoEdits(s);
    NoneKept(Code);
    if c < |s| {
      var n := PieceEnd(s, c);
      KeptIffOutside(s, n);
      KeptJoin(PieceEdits(s, c), OtlpEdits(s, n), Code);
      PieceOlds(s, c);
      if ClauseAt(s, c) { ClauseKeptIff(s, c); } else { TurnSafe(s, c); }
      NoneKept(After(Code, s[c..n]));
    }
  }

  /** For every text whose clauses do not end inside literals, after the OTLP pass the
      literals are those of the text and the names that the pass quotes, in their order, if
      and only if no literal in a grouping clause holds a dotted label. */
  lemma OtlpLiteralsIff(s: string, hex: string -> string)
    requires Fingerprints(hex) && Aligned(s, 0)
    ensures Spells(Code, Otlp(s, 0, hex)) == Woven(OtlpEdits(s, 0), Code, true) <==> DotsOutside(s, 0)
  {
    hide Kept, Spells, Otlp, OtlpEdits, Woven, Aligned, DotsOutside, Fingerprints;
    OtlpLiterals(s, hex);
    KeptIffOutside(s, 0);
  }
}
