/** The quoted literals of a whole text, read from left to right, and what the alias pass
    does to them. */
module PromqlLexer {
  import opened Common
  import opened PromqlText
  import opened PromqlRewrite
  import opened PromqlAgain

  /** Outside literals, in one, or behind a backslash in one. */
  datatype Lex = Code | Body(q: char) | Pair(q: char)

  /** What the literals of a text spell, one after the other. */
  datatype Token = Opening(q: char) | Spelt(u: Unit) | Closing

  /** The quote of a literal is a quote, and a backtick literal has no escapes. */
  predicate Valid(st: Lex) { !st.Code? ==> Quote(st.q) && (st.Pair? ==> st.q != '`') }

  function Next(st: Lex, c: char): Lex {
    match st
    case Code => if Quote(c) then Body(c) else Code
    case Body(q) => if q != '`' && c == '\\' then Pair(q) else if c == q then Code else Body(q)
    case Pair(q) => Body(q)
  }

  function Units(us: seq<Unit>): (ts: seq<Token>)
    ensures |ts| == |us|
  {
    seq(|us|, i requires 0 <= i < |us| => Spelt(us[i]))
  }

  function Emits(st: Lex, c: char): seq<Token> {
    match st
    case Code => if Quote(c) then [Opening(c)] else []
    case Body(q) => if q != '`' && c == '\\' then [] else if c == q then [Closing] else [Spelt(Chr(c))]
    case Pair(_) => Units(EscapeMeans(c))
  }

  /** A backslash that ends the text stands for itself. */
  function AtEnd(st: Lex): seq<Token> { if st.Pair? then [Spelt(Chr('\\'))] else [] }

  function After(st: Lex, t: string): Lex
    decreases |t|
  {
    if t == [] then st else After(Next(st, t[0]), t[1..])
  }

  function Emitted(st: Lex, t: string): seq<Token>
    decreases |t|
  {
    if t == [] then [] else Emits(st, t[0]) + Emitted(Next(st, t[0]), t[1..])
  }

  /** What the literals of a text spell, when it starts in `st`, read leniently. */
  function Spells(st: Lex, t: string): seq<Token> { Emitted(st, t) + AtEnd(After(st, t)) }

  /** Every escape in the literals of a text is standard, so that reading it strictly gives
      the same. */
  predicate Standard(st: Lex, t: string)
    decreases |t|
  {
    t == [] || ((st.Pair? ==> StandardEscape(t[0])) && Standard(Next(st, t[0]), t[1..]))
  }

  // -------------------------------------------------------- one text, then another

  lemma {:induction false} LexJoin(st: Lex, a: string, b: string)
    ensures After(st, a + b) == After(After(st, a), b)
    ensures Emitted(st, a + b) == Emitted(st, a) + Emitted(After(st, a), b)
    ensures Standard(st, a + b) <==> Standard(st, a) && Standard(After(st, a), b)
    decreases |a|
  {
    hide Next, Emits, StandardEscape;
    if a == [] {
      assert a + b == b;
    } else {
      assert (a + b)[1..] == a[1..] + b && (a + b)[0] == a[0];
      LexJoin(Next(st, a[0]), a[1..], b);
    }
  }

  lemma SpellsJoin(st: Lex, a: string, b: string)
    ensures Spells(st, a + b) == Emitted(st, a) + Spells(After(st, a), b)
  {
    hide After, Emitted, AtEnd;
    LexJoin(st, a, b);
    var mid := After(st, a);
    Regroup(Emitted(st, a), Emitted(mid, b), AtEnd(After(mid, b)));
  }

  lemma Regroup<T>(a: seq<T>, b: seq<T>, c: seq<T>)
    ensures a + b + c == a + (b + c)
  {
  }

  lemma LexOne(st: Lex, c: char)
    ensures After(st, [c]) == Next(st, c) && Emitted(st, [c]) == Emits(st, c)
    ensures Standard(st, [c]) <==> (st.Pair? ==> StandardEscape(c))
  {
    hide Next, Emits;
    assert [c][1..] == [];
    assert Emits(st, c) + [] == Emits(st, c);
  }

  lemma LexNone(st: Lex)
    ensures After(st, []) == st && Emitted(st, []) == [] && Standard(st, []) && Spells(st, []) == AtEnd(st)
  {
  }

  lemma {:induction false} StaysValid(st: Lex, t: string)
    requires Valid(st)
    ensures Valid(After(st, t))
    decreases |t|
  {
    if t != [] { StaysValid(Next(st, t[0]), t[1..]); }
  }

  predicate NoQuotes(w: string) { forall i :: 0 <= i < |w| ==> !Quote(w[i]) }

  /** Text without quotes, outside literals. */
  lemma {:induction false} PlainCode(w: string)
    requires NoQuotes(w)
    ensures After(Code, w) == Code && Emitted(Code, w) == [] && Standard(Code, w)
    decreases |w|
  {
    if w != [] { PlainCode(w[1..]); }
  }

  // ---------------------------------------------------- one literal, read by itself

  /** The end of a literal and what follows it. */
  function BehindLiteral(q: char, s: string): seq<Token> {
    if Closed(q, s) then [Closing] + Spells(Code, s[CopyBody(q, s).1..]) else []
  }

  /** Reading on from within a literal is the reading of this literal by itself, then that of
      the text behind it. */
  lemma {:induction false} ReadsLiteral(q: char, s: string)
    requires Quote(q)
    ensures var r := Lenient(q, s);
            r.closed == Closed(q, s) && Spells(Body(q), s) == Units(r.units) + BehindLiteral(q, s)
    decreases |s|
  {
    hide Spells, Units, EscapeMeans, Lenient, CopyBody, Closed;
    BodyTurn(q, s);
    LenientTurn(q, s);
    UnitsJoin([], []);
    if s == [] || (|s| == 1 && q != '`' && s[0] == '\\') {
      ReadsLast(q, s);
    } else if q != '`' && s[0] == '\\' {
      ReadsLiteral(q, s[2..]);
      ReadsEscape(q, s);
      var r := Lenient(q, s[2..]);
      assert s[2..][CopyBody(q, s[2..]).1..] == s[CopyBody(q, s).1..];
      UnitsThen(EscapeMeans(s[1]), r.units, BehindLiteral(q, s[2..]));
    } else if s[0] == q {
      ReadsChar(q, s);
      assert [] + BehindLiteral(q, s) == BehindLiteral(q, s);
    } else {
      ReadsLiteral(q, s[1..]);
      ReadsChar(q, s);
      assert s[1..][CopyBody(q, s[1..]).1..] == s[CopyBody(q, s).1..];
      UnitsThen([Chr(s[0])], Lenient(q, s[1..]).units, BehindLiteral(q, s[1..]));
    }
  }

  lemma LenientTurn(q: char, s: string)
    ensures s == [] ==> Lenient(q, s) == Reading([], false)
    ensures s != [] && q != '`' && s[0] == '\\' ==>
              Lenient(q, s) == if |s| == 1 then Reading([Chr('\\')], false) else Before(EscapeMeans(s[1]), Lenient(q, s[2..]))
    ensures s != [] && !(q != '`' && s[0] == '\\') ==>
              Lenient(q, s) == if s[0] == q then Reading([], true) else Before([Chr(s[0])], Lenient(q, s[1..]))
  {
    hide EscapeMeans;
  }

  lemma UnitsJoin(a: seq<Unit>, b: seq<Unit>)
    ensures Units(a + b) == Units(a) + Units(b) && Units([]) == [] && forall u :: Units([u]) == [Spelt(u)]
  {
  }

  lemma UnitsThen(a: seq<Unit>, b: seq<Unit>, ts: seq<Token>)
    ensures Units(a) + (Units(b) + ts) == Units(a + b) + ts
  {
    hide Units;
    UnitsJoin(a, b);
    Regroup(Units(a), Units(b), ts);
  }

  lemma ReadsLast(q: char, s: string)
    requires Quote(q) && (s == [] || (|s| == 1 && q != '`' && s[0] == '\\'))
    ensures Spells(Body(q), s) == if s == [] then [] else [Spelt(Chr('\\'))]
  {
    hide After, Emitted;
    LexNone(Body(q));
    LexOne(Body(q), '\\');
    assert s == [] || s == ['\\'];
  }

  lemma ReadsEscape(q: char, s: string)
    requires |s| > 1 && q != '`' && s[0] == '\\'
    ensures Spells(Body(q), s) == Units(EscapeMeans(s[1])) + Spells(Body(q), s[2..])
  {
    hide Spells, Units, EscapeMeans;
    assert s == [s[0], s[1]] + s[2..];
    SpellsJoin(Body(q), [s[0], s[1]], s[2..]);
    EscapeReads(q, s[1]);
  }

  lemma EscapeReads(q: char, e: char)
    requires q != '`'
    ensures After(Body(q), ['\\', e]) == Body(q) && Emitted(Body(q), ['\\', e]) == Units(EscapeMeans(e))
    ensures Standard(Body(q), ['\\', e]) <==> StandardEscape(e)
  {
    hide EscapeMeans, Units, StandardEscape;
    var w := ['\\', e];
    assert w == ['\\'] + [e];
    LexJoin(Body(q), ['\\'], [e]);
    LexOne(Body(q), '\\');
    LexOne(Pair(q), e);
    assert [] + Units(EscapeMeans(e)) == Units(EscapeMeans(e));
  }

  lemma ReadsChar(q: char, s: string)
    requires s != [] && !(q != '`' && s[0] == '\\')
    ensures Spells(Body(q), s) == if s[0] == q then [Closing] + Spells(Code, s[1..]) else [Spelt(Chr(s[0]))] + Spells(Body(q), s[1..])
  {
    hide Spells;
    assert s == [s[0]] + s[1..];
    SpellsJoin(Body(q), [s[0]], s[1..]);
    LexOne(Body(q), s[0]);
  }

  /** Where every escape is standard, and only there, the literal can be read strictly. */
  lemma {:induction false} StandardLiteral(q: char, s: string)
    requires Quote(q)
    ensures Standard(Body(q), s) <==> Strict(q, s).Some? && (Closed(q, s) ==> Standard(Code, s[CopyBody(q, s).1..]))
    decreases |s|
  {
    hide StandardEscape, Strict, CopyBody, Closed, Standard;
    BodyTurn(q, s);
    StrictTurn(q, s);
    if s == [] || (|s| == 1 && q != '`' && s[0] == '\\') {
      LexNone(Body(q));
      LexOne(Body(q), '\\');
      assert s == [] || s == ['\\'];
    } else if q != '`' && s[0] == '\\' {
      assert s == [s[0], s[1]] + s[2..];
      LexJoin(Body(q), [s[0], s[1]], s[2..]);
      EscapeReads(q, s[1]);
      StandardLiteral(q, s[2..]);
      assert s[2..][CopyBody(q, s[2..]).1..] == s[CopyBody(q, s).1..];
    } else {
      assert s == [s[0]] + s[1..];
      LexJoin(Body(q), [s[0]], s[1..]);
      LexOne(Body(q), s[0]);
      if s[0] != q {
        StandardLiteral(q, s[1..]);
        assert s[1..][CopyBody(q, s[1..]).1..] == s[CopyBody(q, s).1..];
      }
    }
  }

  lemma StrictTurn(q: char, s: string)
    ensures s == [] ==> Strict(q, s).Some?
    ensures s != [] && q != '`' && s[0] == '\\' ==>
              (Strict(q, s).Some? <==> |s| == 1 || (StandardEscape(s[1]) && Strict(q, s[2..]).Some?))
    ensures s != [] && !(q != '`' && s[0] == '\\') ==> (Strict(q, s).Some? <==> s[0] == q || Strict(q, s[1..]).Some?)
  {
    hide StandardEscape;
  }

  // ------------------------------------------------------------------ a copied literal

  /** An escape that is made standard spells what it spelled. */
  lemma EscapeSame(q: char, e: char)
    requires Quote(q) && q != '`'
    ensures var w := Escaped(e);
            && After(Body(q), w) == Body(q) && Emitted(Body(q), w) == Emitted(Body(q), ['\\', e]) && Standard(Body(q), w)
  {
    hide After, Emitted, Standard;
    EscapeReads(q, e);
    UnitsJoin([Esc('\\')], [Chr(e)]);
    if e == '/' {
      LexOne(Body(q), '/');
    } else if !StandardEscape(e) {
      assert ['\\', '\\', e] == ['\\', '\\'] + [e];
      LexJoin(Body(q), ['\\', '\\'], [e]);
      EscapeReads(q, '\\');
      LexOne(Body(q), e);
    }
  }

  /** A copied literal spells what it spelled, with standard escapes only, and stops in the
      same state. */
  lemma {:induction false} BodySame(q: char, s: string)
    requires Quote(q)
    ensures var (w, n) := CopyBody(q, s);
            && After(Body(q), w) == After(Body(q), s[..n]) && Emitted(Body(q), w) == Emitted(Body(q), s[..n])
            && Standard(Body(q), w) && (Closed(q, s) ==> After(Body(q), w) == Code)
    decreases |s|
  {
    hide After, Emitted, Standard, CopyBody, Escaped, Closed;
    BodyTurn(q, s);
    var (w, n) := CopyBody(q, s);
    if s == [] || (|s| == 1 && q != '`' && s[0] == '\\') {
      assert s[..n] == w == s;
      LexNone(Body(q));
      LexOne(Body(q), '\\');
      assert s == [] || s == ['\\'];
    } else if q != '`' && s[0] == '\\' {
      BodySame(q, s[2..]);
      EscapeSame(q, s[1]);
      EscapeReads(q, s[1]);
      var (v, m) := CopyBody(q, s[2..]);
      assert s[..n] == ['\\', s[1]] + s[2..][..m];
      LexJoin(Body(q), Escaped(s[1]), v);
      LexJoin(Body(q), ['\\', s[1]], s[2..][..m]);
    } else if s[0] == q {
      assert s[..n] == [q];
      LexOne(Body(q), q);
    } else {
      BodySame(q, s[1..]);
      var (v, m) := CopyBody(q, s[1..]);
      assert s[..n] == [s[0]] + s[1..][..m];
      LexOne(Body(q), s[0]);
      LexJoin(Body(q), [s[0]], v);
      LexJoin(Body(q), [s[0]], s[1..][..m]);
    }
  }

  // ----------------------------------------------------------------- the alias pass

  lemma PieceSame(s: string, c: nat)
    requires c < |s|
    ensures var (w, n) := AliasPiece(s, c);
            && After(Code, w) == After(Code, s[c..n]) && Emitted(Code, w) == Emitted(Code, s[c..n])
            && Standard(Code, w) && (After(Code, w) == Code || n == |s|)
  {
    hide After, Emitted, Standard, CopyBody, AliasAt, Smoothing, Closed;
    var (w, n) := AliasPiece(s, c);
    if Quote(s[c]) {
      var q, t := s[c], s[c + 1..];
      var (v, m) := CopyBody(q, t);
      BodySame(q, t);
      if !Closed(q, t) { OpenTakesAll(q, t); }
      LexOne(Code, q);
      LexJoin(Code, [q], v);
      LexJoin(Code, [q], t[..m]);
      assert s[c..n] == [q] + t[..m];
    } else {
      PieceUnquoted(s, c);
      PlainCode(w);
      PlainCode(s[c..n]);
    }
  }

  lemma PieceUnquoted(s: string, c: nat)
    requires c < |s| && !Quote(s[c])
    ensures var (w, n) := AliasPiece(s, c); NoQuotes(w) && NoQuotes(s[c..n])
  {
    hide AliasAt, Smoothing, CopyBody;
    if AliasAt(s, c) { NamesUnquoted(s, c); }
  }

  lemma NamesUnquoted(s: string, c: nat)
    requires AliasAt(s, c)
    ensures c + 12 <= |s| && NoQuotes(s[c..c + 12]) && NoQuotes(Smoothing())
  {
    hide SkipSpace;
    OldNameInert();
    NewNameChars();
  }

  /** After the alias pass the literals of every text spell what they spelled before, and
      every escape in them is standard. */
  lemma {:induction false} AliasSpells(s: string, c: nat)
    requires c <= |s|
    ensures Spells(Code, Aliased(s, c)) == Spells(Code, s[c..]) && Standard(Code, Aliased(s, c))
    decreases |s| - c
  {
    hide After, Emitted, Standard, AliasPiece, AtEnd;
    if c == |s| {
      LexNone(Code);
    } else {
      var (w, n) := AliasPiece(s, c);
      PieceSame(s, c);
      AliasSpells(s, n);
      assert s[c..] == s[c..n] + s[n..];
      SpellsJoin(Code, w, Aliased(s, n));
      SpellsJoin(Code, s[c..n], s[n..]);
      LexJoin(Code, w, Aliased(s, n));
      if n == |s| { assert s[n..] == [] == Aliased(s, n); LexNone(After(Code, w)); }
    }
  }
}
