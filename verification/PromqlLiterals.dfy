/** What the OTLP pass does to the quoted literals of a text, and exactly when they spell
    afterwards what they spelled before. */
module PromqlLiterals {
  import opened PromqlText
  import opened PromqlRewrite
  import opened PromqlAgain
  import opened PromqlOtlpAgain
  import opened PromqlLexer
  import opened PromqlEdits

  // ------------------------------------------------------------- edits in literals

  /** A name is rewritten outside literals only; an escape also in a literal that has
      escapes. */
  predicate KeptOne(g: Edit, st: Lex) {
    match g
    case Keep(_) => true
    case Escape(_) => st.Code? || (st.Body? && st.q != '`')
    case _ => st.Code?
  }

  /** No edit falls into a literal of the text, which starts in `st`. */
  predicate Kept(gs: seq<Edit>, st: Lex)
    decreases |gs|
  {
    gs == [] || (KeptOne(gs[0], st) && Kept(gs[1..], After(st, Old(gs[0]))))
  }

  function Chars(v: string): (us: seq<Unit>)
    ensures |us| == |v|
  {
    seq(|v|, i requires 0 <= i < |v| => Chr(v[i]))
  }

  /** A quoted name spells the name. */
  function NameTokens(v: string): seq<Token> { [Opening('"')] + (Units(Chars(v)) + [Closing]) }

  function Names(g: Edit): seq<Token> {
    match g
    case Metric(v, _, _) => NameTokens(v)
    case Matcher(v) => NameTokens(v)
    case _ => []
  }

  function Inserted(g: Edit, st: Lex, named: bool): seq<Token> { if named && st.Code? then Names(g) else [] }

  /** What the literals of the edited text spell and, if `named`, between them the names that
      edits outside literals put into quotes. */
  function Woven(gs: seq<Edit>, st: Lex, named: bool): seq<Token>
    decreases |gs|
  {
    if gs == [] then AtEnd(st)
    else Inserted(gs[0], st, named) + Emitted(st, Old(gs[0])) + Woven(gs[1..], After(st, Old(gs[0])), named)
  }

  // ---------------------------------------------------------- where an edit is kept

  /** Neither a double quote nor a backslash. */
  predicate Bare(w: string) { forall i :: 0 <= i < |w| ==> w[i] != '"' && w[i] != '\\' }

  lemma {:induction false} BareInside(w: string)
    requires Bare(w)
    ensures After(Body('"'), w) == Body('"') && Emitted(Body('"'), w) == Units(Chars(w)) && Standard(Body('"'), w)
    decreases |w|
  {
    if w != [] {
      BareInside(w[1..]);
      assert Chars(w) == [Chr(w[0])] + Chars(w[1..]);
      UnitsJoin([Chr(w[0])], Chars(w[1..]));
    }
  }

  lemma QuotedSpells(v: string)
    requires Word(v, true)
    ensures After(Code, Quoted(v)) == Code && Emitted(Code, Quoted(v)) == NameTokens(v) && Standard(Code, Quoted(v))
  {
    hide After, Emitted, Standard, Word, QuotedChars, Units, Bare;
    QuotedName(v);
    assert Quoted(v) == ['"'] + (v + ['"']);
    LexJoin(Code, ['"'], v + ['"']);
    LexOne(Code, '"');
    LexJoin(Body('"'), v, ['"']);
    WordIsBare(v);
    BareInside(v);
    LexOne(Body('"'), '"');
  }

  lemma WordIsBare(w: string)
    requires Word(w, true)
    ensures Bare(w)
  {
  }

  lemma WordUnquoted(w: string)
    requires Word(w, true)
    ensures NoQuotes(w) && '\\' !in w
  {
  }

  lemma MetricSpells(v: string, close: char)
    requires Word(v, true) && !Quote(close)
    ensures var w := NamePrefix(v) + [close]; After(Code, w) == Code && Emitted(Code, w) == NameTokens(v) && Standard(Code, w)
  {
    hide After, Emitted, Standard, Word, Quoted, NameTokens, NameLabel, NamePrefix;
    var head := ['{'] + (NameLabel() + ['=']);
    NamePrefixParts(v);
    assert NamePrefix(v) + [close] == head + (Quoted(v) + [close]);
    HeadUnquoted();
    PlainCode(head);
    LexJoin(Code, head, Quoted(v) + [close]);
    QuotedSpells(v);
    LexJoin(Code, Quoted(v), [close]);
    LexOne(Code, close);
    assert [] + (NameTokens(v) + []) == NameTokens(v);
  }

  lemma HeadUnquoted()
    ensures NoQuotes(['{'] + (NameLabel() + ['=']))
  {
  }

  /** Outside literals an escape is only text. */
  lemma EscapeOutside(e: char)
    ensures After(Code, Escaped(e)) == After(Code, ['\\', e]) && Emitted(Code, Escaped(e)) == Emitted(Code, ['\\', e]) && Standard(Code, Escaped(e))
  {
    hide After, Emitted, Standard, StandardEscape;
    PlainCode(['\\']);
    PlainCode(['\\', '\\']);
    LexOne(Code, e);
    LexJoin(Code, ['\\'], [e]);
    LexJoin(Code, ['\\', '\\'], [e]);
    assert ['\\'] + [e] == ['\\', e] && ['\\', '\\'] + [e] == ['\\', '\\', e];
    if e != '/' && StandardEscape(e) { StandardOutside(['\\', e]); }
  }

  lemma StandardOutside(w: string)
    ensures |w| == 2 && w[0] == '\\' ==> Standard(Code, w)
  {
    hide Standard;
    if |w| == 2 && w[0] == '\\' {
      assert w == ['\\'] + [w[1]];
      LexJoin(Code, ['\\'], [w[1]]);
      LexOne(Code, '\\');
      LexOne(Code, w[1]);
    }
  }

  /** A kept edit leaves the state and the literals, up to the names it inserts. */
  lemma KeptSame(g: Edit, st: Lex, hex: string -> string)
    requires Sound(g) && Valid(st) && Fingerprints(hex) && KeptOne(g, st)
    ensures After(st, New(g, hex)) == After(st, Old(g)) && Emitted(st, New(g, hex)) == Inserted(g, st, true) + Emitted(st, Old(g))
    ensures Standard(st, Old(g)) ==> Standard(st, New(g, hex))
  {
    hide After, Emitted, Standard, Fingerprints, NormalizeLabel, Quoted, NamePrefix, NameTokens, Word, NoQuotes, Escaped, StandardEscape, Quote;
    match g {
      case Keep(t) => assert [] + Emitted(st, t) == Emitted(st, t);
      case Escape(e) =>
        if st.Code? { EscapeOutside(e); } else { EscapeSame(st.q, e); EscapeReads(st.q, e); }
        assert [] + Emitted(st, Old(g)) == Emitted(st, Old(g));
      case Metric(v, behind, close) =>
        WordUnquoted(v);
        UnquotedJoin(v, behind);
        PlainCode(v + behind);
        MetricSpells(v, close);
        assert NameTokens(v) + [] == NameTokens(v);
      case Matcher(v) =>
        LabelWord(v);
        WordUnquoted(v);
        PlainCode(v);
        QuotedSpells(v);
        assert NameTokens(v) + [] == NameTokens(v);
      case Grouping(v) =>
        LabelWord(v);
        WordUnquoted(v);
        PlainCode(v);
        NormalizedIsLabel(v, hex);
        LabelIsWord(NormalizeLabel(v, hex));
        WordUnquoted(NormalizeLabel(v, hex));
        PlainCode(NormalizeLabel(v, hex));
    }
  }

  lemma LabelWord(v: string)
    requires Word(v, false)
    ensures Word(v, true)
  {
  }

  lemma LabelIsWord(n: string)
    requires IsLabel(n)
    ensures Word(n, true) && '.' !in n
  {
  }

  // ------------------------------------------------------ where it is not, it shows

  /** Inside a literal two different characters show. */
  lemma CharShows(st: Lex, a: char, b: char, x: seq<Token>, y: seq<Token>)
    requires Valid(st) && !st.Code? && a != b && !Quote(a) && a != '\\' && b != '\\'
    ensures Emits(st, a) + x != Emits(st, b) + y
  {
    var l, r := Emits(st, a) + x, Emits(st, b) + y;
    assert l[0] == Emits(st, a)[0] && r[0] == Emits(st, b)[0];
    if st.Pair? && a != '/' && !StandardEscape(a) && b != '/' && !StandardEscape(b) {
      assert l[1] == Emits(st, a)[1] == Spelt(Chr(a)) && r[1] == Emits(st, b)[1] == Spelt(Chr(b));
    }
  }

  lemma {:induction false} WordStays(st: Lex, w: string)
    requires Valid(st) && !st.Code? && Word(w, true)
    ensures Valid(After(st, w)) && !After(st, w).Code?
    decreases |w|
  {
    if w != [] { WordStays(Next(st, w[0]), w[1..]); }
  }

  /** Two texts that part inside a literal, behind the same word. */
  lemma Parted(st: Lex, p: string, a: char, v: string, b: char, w: string, x: seq<Token>, y: seq<Token>)
    requires Valid(st) && !st.Code? && Word(p, true) && a != b && !Quote(a) && a != '\\' && b != '\\'
    ensures Emitted(st, p + ([a] + v)) + x != Emitted(st, p + ([b] + w)) + y
  {
    hide After, Emitted, Word, Emits, Quote;
    var mid := After(st, p);
    WordStays(st, p);
    LexJoin(st, p, [a] + v);
    LexJoin(st, p, [b] + w);
    LexJoin(mid, [a], v);
    LexJoin(mid, [b], w);
    LexOne(mid, a);
    LexOne(mid, b);
    var l, r := Emitted(Next(mid, a), v), Emitted(Next(mid, b), w);
    CharShows(mid, a, b, l + x, r + y);
    Split3(Emitted(st, p), Emits(mid, a), l, x);
    Split3(Emitted(st, p), Emits(mid, b), r, y);
    SameHead(Emitted(st, p), Emits(mid, a) + (l + x), Emits(mid, b) + (r + y));
  }

  lemma Split3<T>(p: seq<T>, a: seq<T>, l: seq<T>, x: seq<T>)
    ensures p + (a + l) + x == p + (a + (l + x))
  {
  }

  lemma SameHead<T>(p: seq<T>, a: seq<T>, b: seq<T>)
    ensures p + a == p + b <==> a == b
  {
    if p + a == p + b { assert a == (p + a)[|p|..] && b == (p + b)[|p|..]; }
  }

  /** Where a text parts from another. */
  predicate PartAt(o: string, n: string, j: nat) {
    && j < |o| && j < |n| && o[..j] == n[..j] && o[j] != n[j]
    && Word(o[..j], true) && !Quote(o[j]) && o[j] != '\\' && n[j] != '\\'
  }

  lemma PartShows(st: Lex, o: string, n: string, j: nat, x: seq<Token>, y: seq<Token>)
    requires Valid(st) && !st.Code? && PartAt(o, n, j)
    ensures Emitted(st, n) + y != Emitted(st, o) + x
  {
    hide Emitted, Word, Quote;
    assert o == o[..j] + ([o[j]] + o[j + 1..]) && n == o[..j] + ([n[j]] + n[j + 1..]);
    Parted(st, o[..j], o[j], o[j + 1..], n[j], n[j + 1..], x, y);
  }

  function FirstDot(v: string): (j: nat)
    requires '.' in v
    ensures j < |v| && v[j] == '.' && '.' !in v[..j]
  {
    if v[0] == '.' then 0
    else
      var j := FirstDot(v[1..]) + 1;
      assert v[..j] == [v[0]] + v[1..][..j - 1];
      j
  }

  /** A normalized label parts from the label at its first dot, or at once. */
  lemma NormalizedParts(v: string, hex: string -> string) returns (j: nat)
    requires DottedLabel(v)
    ensures PartAt(v, NormalizeLabel(v, hex), j)
  {
    var n := NormalizeLabel(v, hex);
    var clean := Allowed(v);
    if "__" <= clean {
      j := 0;
      assert clean[0] == "__"[0];
      assert n[0] == 'o';
    } else {
      j := FirstDot(v);
      assert "__" <= "__name__";
      assert n == clean + ("_x" + hex(v));
      forall i | 0 <= i < j ensures v[i] == clean[i] { assert v[i] == v[..j][i] != '.'; }
      assert n[..j] == clean[..j] == v[..j];
    }
  }

  lemma NamePartsAtOnce(v: string, n: string)
    requires v != [] && MetricFirst(v[0]) && n != [] && !MetricFirst(n[0]) && n[0] != '\\'
    ensures PartAt(v, n, 0)
  {
  }

  /** An edit that falls into a literal shows. */
  lemma LostShows(g: Edit, st: Lex, hex: string -> string, x: seq<Token>, y: seq<Token>)
    requires Sound(g) && Valid(st) && !KeptOne(g, st)
    ensures Emitted(st, New(g, hex)) + y != Emitted(st, Old(g)) + x
  {
    hide Emitted, NormalizeLabel, Quoted, NamePrefix, Word, NoQuotes, Escaped, StandardEscape, PartAt;
    match g {
      case Keep(_) => {}
      case Escape(e) => EscapeShows(st, e, x, y);
      case Metric(v, behind, close) =>
        MetricParts(v, behind, close);
        PartShows(st, v + behind, NamePrefix(v) + [close], 0, x, y);
      case Matcher(v) =>
        MatcherParts(v);
        PartShows(st, v, Quoted(v), 0, x, y);
      case Grouping(v) =>
        var j := NormalizedParts(v, hex);
        PartShows(st, v, NormalizeLabel(v, hex), j, x, y);
    }
  }

  lemma MetricParts(v: string, behind: string, close: char)
    requires v != [] && MetricFirst(v[0])
    ensures PartAt(v + behind, NamePrefix(v) + [close], 0)
  {
    hide NamePrefix, PartAt;
    NamePartsAtOnce(v + behind, NamePrefix(v) + [close]);
  }

  lemma MatcherParts(v: string)
    requires v != [] && LabelFirst(v[0])
    ensures PartAt(v, Quoted(v), 0)
  {
    hide Quoted, PartAt;
    QuotedStarts(v);
    NamePartsAtOnce(v, Quoted(v));
  }

  /** In a backtick literal, or behind a backslash. */
  lemma EscapeShows(st: Lex, e: char, x: seq<Token>, y: seq<Token>)
    requires Valid(st) && !StandardEscape(e) && (st == Body('`') || st.Pair?)
    ensures Emitted(st, Escaped(e)) + y != Emitted(st, ['\\', e]) + x
  {
    hide Emitted;
    var l, r := Emitted(st, ['\\', e]) + x, Emitted(st, Escaped(e)) + y;
    assert ['\\', e] == ['\\'] + [e] && ['\\', '\\', e] == ['\\'] + ['\\', e];
    LexJoin(st, ['\\'], [e]);
    LexOne(st, '\\');
    LexOne(Next(st, '\\'), e);
    if e == '/' {
      LexOne(st, '/');
      assert l[0] == Emits(st, '\\')[0] && r[0] == Spelt(Chr('/'));
    } else {
      LexJoin(st, ['\\'], ['\\', e]);
      SecondShows(st, e);
      assert l[1] == (Emits(st, '\\') + Emits(Next(st, '\\'), e))[1];
      assert r[1] == (Emits(st, '\\') + Emitted(Next(st, '\\'), ['\\', e]))[1];
    }
  }

  lemma SecondShows(st: Lex, e: char)
    requires Valid(st) && !StandardEscape(e) && e != '/' && (st == Body('`') || st.Pair?)
    ensures var mid := Next(st, '\\');
            && |Emits(st, '\\')| == 1 && Emits(mid, e) != [] && Emitted(mid, ['\\', e]) != []
            && Emits(mid, e)[0] != Emitted(mid, ['\\', e])[0]
  {
    hide Emitted;
    var mid := Next(st, '\\');
    if st.Pair? {
      EscapeReads(st.q, e);
    } else {
      assert ['\\', e] == ['\\'] + [e];
      LexJoin(mid, ['\\'], [e]);
      LexOne(mid, '\\');
    }
  }

  // -------------------------------------------------------------------- every edit

  /** The literals of the edited text are those of the text, and between them the names that
      the edits put into quotes, if and only if no edit falls into a literal. Then standard
      escapes stay standard. */
  lemma {:induction false} KeptIff(gs: seq<Edit>, st: Lex, hex: string -> string)
    requires AllSound(gs) && Valid(st) && Fingerprints(hex)
    ensures Spells(st, News(gs, hex)) == Woven(gs, st, true) <==> Kept(gs, st)
    ensures Kept(gs, st) && Standard(st, Olds(gs)) ==> Standard(st, News(gs, hex))
    decreases |gs|
  {
    hide After, Emitted, Standard, Old, New, Sound, Fingerprints, Spells, KeptOne, Inserted, Valid;
    if gs == [] {
      LexNone(st);
    } else {
      var g, rest := gs[0], gs[1..];
      var mid := After(st, Old(g));
      StaysValid(st, Old(g));
      KeptIff(rest, mid, hex);
      SpellsJoin(st, New(g, hex), News(rest, hex));
      LexJoin(st, New(g, hex), News(rest, hex));
      LexJoin(st, Old(g), Olds(rest));
      if KeptOne(g, st) {
        KeptSame(g, st, hex);
        SameHead(Emitted(st, New(g, hex)), Spells(mid, News(rest, hex)), Woven(rest, mid, true));
      } else {
        NothingInserted(g, st);
        LostShows(g, st, hex, Woven(rest, mid, true), Spells(After(st, New(g, hex)), News(rest, hex)));
        assert [] + Emitted(st, Old(g)) == Emitted(st, Old(g));
      }
    }
  }

  lemma NothingInserted(g: Edit, st: Lex)
    requires !KeptOne(g, st)
    ensures Inserted(g, st, true) == []
  {
  }

  /** Without the names: what the literals of the text spell. */
  lemma {:induction false} WovenSpells(gs: seq<Edit>, st: Lex)
    ensures Woven(gs, st, false) == Spells(st, Olds(gs))
    decreases |gs|
  {
    hide After, Emitted, Old, Spells;
    if gs == [] {
      LexNone(st);
    } else {
      WovenSpells(gs[1..], After(st, Old(gs[0])));
      SpellsJoin(st, Old(gs[0]), Olds(gs[1..]));
      assert [] + Emitted(st, Old(gs[0])) == Emitted(st, Old(gs[0]));
    }
  }

  /** For every text that the OTLP pass is given: without the names that the pass quotes, the
      tokens below are those of the text; the literals of the output are these tokens if and
      only if no edit falls into a literal; and then standard escapes stay standard. */
  lemma OtlpLiterals(s: string, hex: string -> string)
    requires Fingerprints(hex)
    ensures var gs := OtlpEdits(s, 0);
            && Woven(gs, Code, false) == Spells(Code, s)
            && (Spells(Code, Otlp(s, 0, hex)) == Woven(gs, Code, true) <==> Kept(gs, Code))
            && (Kept(gs, Code) && Standard(Code, s) ==> Standard(Code, Otlp(s, 0, hex)))
  {
    hide Spells, Standard, Woven, Kept, OtlpEdits, Otlp, Fingerprints;
    var gs := OtlpEdits(s, 0);
    OtlpTurns(s, 0, hex);
    assert s[0..] == s;
    KeptIff(gs, Code, hex);
    WovenSpells(gs, Code);
  }
}
