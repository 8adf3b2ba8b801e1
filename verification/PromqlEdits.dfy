/** The OTLP pass as a list of edits: what it takes from the text and what it puts there. */
module PromqlEdits {
  import opened PromqlText
  import opened PromqlRewrite
  import opened PromqlOtlpAgain
  import opened PromqlLexer

  /** Text that stays; a dotted metric name and the braces behind it that become a name
      matcher; a dotted label that is quoted; a dotted label that is normalized; an escape
      that is made standard. */
  datatype Edit =
    | Keep(text: string)
    | Metric(name: string, behind: string, close: char)
    | Matcher(name: string)
    | Grouping(name: string)
    | Escape(e: char)

  function Old(g: Edit): string {
    match g
    case Keep(t) => t
    case Metric(v, behind, _) => v + behind
    case Matcher(v) => v
    case Grouping(v) => v
    case Escape(e) => ['\\', e]
  }

  function New(g: Edit, hex: string -> string): string {
    match g
    case Keep(t) => t
    case Metric(v, _, close) => NamePrefix(v) + [close]
    case Matcher(v) => Quoted(v)
    case Grouping(v) => NormalizeLabel(v, hex)
    case Escape(e) => Escaped(e)
  }

  predicate DottedName(v: string) { v != [] && MetricFirst(v[0]) && Word(v, true) && '.' in v }

  predicate DottedLabel(v: string) { v != [] && LabelFirst(v[0]) && Word(v, false) && '.' in v }

  predicate Sound(g: Edit) {
    match g
    case Keep(_) => true
    case Metric(v, behind, close) => DottedName(v) && NoQuotes(behind) && !Quote(close)
    case Matcher(v) => DottedLabel(v)
    case Grouping(v) => DottedLabel(v)
    case Escape(e) => !StandardEscape(e)
  }

  predicate AllSound(gs: seq<Edit>) { forall i :: 0 <= i < |gs| ==> Sound(gs[i]) }

  function Olds(gs: seq<Edit>): string { if gs == [] then [] else Old(gs[0]) + Olds(gs[1..]) }

  function News(gs: seq<Edit>, hex: string -> string): string { if gs == [] then [] else New(gs[0], hex) + News(gs[1..], hex) }

  /** These edits turn `o` into `n`. */
  predicate Turns(gs: seq<Edit>, o: string, n: string, hex: string -> string) { AllSound(gs) && Olds(gs) == o && News(gs, hex) == n }

  lemma {:induction false} TurnsJoin(a: seq<Edit>, o: string, n: string, b: seq<Edit>, p: string, m: string, hex: string -> string)
    requires Turns(a, o, n, hex) && Turns(b, p, m, hex)
    ensures Turns(a + b, o + p, n + m, hex)
    decreases |a|
  {
    hide Old, New, Sound;
    if a == [] {
      assert a + b == b;
    } else {
      var rest := a[1..];
      TurnsJoin(rest, Olds(rest), News(rest, hex), b, p, m, hex);
      assert (a + b)[1..] == rest + b && (a + b)[0] == a[0];
      Regroup(Old(a[0]), Olds(rest), p);
      Regroup(New(a[0], hex), News(rest, hex), m);
    }
  }

  lemma TurnsOne(g: Edit, hex: string -> string)
    requires Sound(g)
    ensures Turns([g], Old(g), New(g, hex), hex)
  {
    hide Old, New, Sound;
    var rest := [g][1..];
    assert rest == [] && Olds(rest) == [] && News(rest, hex) == [];
    assert Old(g) + [] == Old(g) && New(g, hex) + [] == New(g, hex);
    assert Olds([g]) == Old(g) + Olds(rest) && News([g], hex) == New(g, hex) + News(rest, hex);
  }

  lemma TurnsNone(hex: string -> string)
    ensures Turns([], [], [], hex)
  {
  }

  /** One edit, then others. */
  lemma TurnsCons(g: Edit, b: seq<Edit>, p: string, m: string, hex: string -> string)
    requires Sound(g) && Turns(b, p, m, hex)
    ensures Turns([g] + b, Old(g) + p, New(g, hex) + m, hex)
  {
    hide Old, New, Sound, Turns;
    TurnsOne(g, hex);
    TurnsJoin([g], Old(g), New(g, hex), b, p, m, hex);
  }

  // ------------------------------------------------------------------ literals

  function BodyEdits(q: char, s: string): seq<Edit>
    decreases |s|
  {
    if s == [] then []
    else if q != '`' && s[0] == '\\' then
      if |s| == 1 then [Keep(s)]
      else [if StandardEscape(s[1]) then Keep(['\\', s[1]]) else Escape(s[1])] + BodyEdits(q, s[2..])
    else if s[0] == q then [Keep([q])]
    else [Keep([s[0]])] + BodyEdits(q, s[1..])
  }

  lemma {:induction false} BodyTurns(q: char, s: string, hex: string -> string)
    ensures var (w, n) := CopyBody(q, s); Turns(BodyEdits(q, s), s[..n], w, hex)
    decreases |s|
  {
    hide Turns, CopyBody, Closed, StandardEscape;
    BodyTurn(q, s);
    var (w, n) := CopyBody(q, s);
    if s == [] {
      TurnsNone(hex);
      assert s[..n] == [];
    } else if q != '`' && s[0] == '\\' {
      if |s| == 1 {
        TurnsOne(Keep(s), hex);
        assert s[..n] == s;
      } else {
        BodyTurns(q, s[2..], hex);
        var (v, m) := CopyBody(q, s[2..]);
        TurnsCons(if StandardEscape(s[1]) then Keep(['\\', s[1]]) else Escape(s[1]), BodyEdits(q, s[2..]), s[2..][..m], v, hex);
        KeptEscape(s[1]);
        assert s[..n] == ['\\', s[1]] + s[2..][..m];
      }
    } else if s[0] == q {
      TurnsOne(Keep([q]), hex);
      assert s[..n] == [q];
    } else {
      BodyTurns(q, s[1..], hex);
      var (v, m) := CopyBody(q, s[1..]);
      TurnsCons(Keep([s[0]]), BodyEdits(q, s[1..]), s[1..][..m], v, hex);
      assert s[..n] == [s[0]] + s[1..][..m];
    }
  }

  lemma KeptEscape(e: char)
    ensures StandardEscape(e) ==> Escaped(e) == ['\\', e]
  {
  }

  function LiteralEdits(s: string, c: nat): seq<Edit>
    requires c < |s|
  {
    [Keep([s[c]])] + BodyEdits(s[c], s[c + 1..])
  }

  lemma LiteralTurns(s: string, c: nat, hex: string -> string)
    requires c < |s|
    ensures var (w, n) := CopyBody(s[c], s[c + 1..]); Turns(LiteralEdits(s, c), s[c..c + 1 + n], [s[c]] + w, hex)
  {
    hide Turns, CopyBody;
    var (w, n) := CopyBody(s[c], s[c + 1..]);
    BodyTurns(s[c], s[c + 1..], hex);
    TurnsCons(Keep([s[c]]), BodyEdits(s[c], s[c + 1..]), s[c + 1..][..n], w, hex);
    assert s[c..c + 1 + n] == [s[c]] + s[c + 1..][..n];
  }

  // ------------------------------------------------------------------ matchers

  function MatcherEdits(s: string, c: nat): seq<Edit>
    requires c < |s|
  {
    if Quote(s[c]) then LiteralEdits(s, c)
    else if LabelFirst(s[c]) then
      var end := SpanEnd(s, c + 1, false);
      [if MatcherEvent(s, c, end) then Matcher(s[c..end]) else Keep(s[c..end])]
    else [Keep([s[c]])]
  }

  function MatchersEdits(s: string, c: nat): seq<Edit>
    requires c <= |s|
    decreases |s| - c
  {
    if c == |s| then []
    else if s[c] == '}' then [Keep("}")]
    else MatcherEdits(s, c) + MatchersEdits(s, MatcherPiece(s, c).1)
  }

  lemma MatcherTurns(s: string, c: nat, hex: string -> string)
    requires c < |s| && s[c] != '}'
    ensures var (w, n) := MatcherPiece(s, c); Turns(MatcherEdits(s, c), s[c..n], w, hex)
  {
    hide Turns, CopyBody, MatcherEvent, Quoted, LiteralEdits, LabelFirst, DottedLabel, SpanEnd;
    if Quote(s[c]) {
      LiteralTurns(s, c, hex);
    } else if LabelFirst(s[c]) {
      var end := SpanEnd(s, c + 1, false);
      if MatcherEvent(s, c, end) {
        EventLabel(s, c, end);
        LabelIsDotted(s, c);
        TurnsOne(Matcher(s[c..end]), hex);
      } else {
        TurnsOne(Keep(s[c..end]), hex);
      }
    } else {
      TurnsOne(Keep([s[c]]), hex);
      assert s[c..c + 1] == [s[c]];
    }
  }

  lemma EventLabel(s: string, c: nat, end: nat)
    requires c <= end <= |s| && MatcherEvent(s, c, end)
    ensures '.' in s[c..end]
  {
  }

  lemma LabelIsDotted(s: string, c: nat)
    requires c < |s| && LabelFirst(s[c]) && '.' in s[c..SpanEnd(s, c + 1, false)]
    ensures DottedLabel(s[c..SpanEnd(s, c + 1, false)])
  {
    hide LabelFirst, SpanEnd;
    SpanIsWord(s, c + 1, false);
    OneWord(s, c, SpanEnd(s, c + 1, false));
  }

  lemma OneWord(s: string, c: nat, e: nat)
    requires c < e <= |s| && LabelFirst(s[c]) && Word(s[c + 1..e], false)
    ensures Word(s[c..e], false) && s[c..e] != [] && s[c..e][0] == s[c]
  {
    assert s[c..e] == [s[c]] + s[c + 1..e];
  }

  lemma {:induction false} MatchersTurn(s: string, c: nat, hex: string -> string)
    requires c <= |s|
    ensures var (w, e) := Matchers(s, c); Turns(MatchersEdits(s, c), s[c..e], w, hex)
    decreases |s| - c
  {
    hide Turns, MatcherPiece, MatcherEdits;
    if c == |s| {
      TurnsNone(hex);
      assert s[c..c] == [];
    } else if s[c] == '}' {
      TurnsOne(Keep("}"), hex);
      assert s[c..c + 1] == "}";
    } else {
      var (w, n) := MatcherPiece(s, c);
      var (v, e) := Matchers(s, n);
      MatcherTurns(s, c, hex);
      MatchersTurn(s, n, hex);
      TurnsJoin(MatcherEdits(s, c), s[c..n], w, MatchersEdits(s, n), s[n..e], v, hex);
      assert s[c..e] == s[c..n] + s[n..e];
    }
  }

  // ------------------------------------------------------------ grouping labels

  function GroupEdit(s: string, c: nat): Edit
    requires c < |s|
  {
    var v := s[c..GroupNext(s, c)];
    if LabelFirst(s[c]) && '.' in v then Grouping(v) else Keep(v)
  }

  function GroupEdits(s: string, c: nat): seq<Edit>
    requires c <= |s|
    decreases |s| - c
  {
    if c == |s| then []
    else if s[c] == ')' then [Keep(")")]
    else [GroupEdit(s, c)] + GroupEdits(s, GroupNext(s, c))
  }

  lemma GroupEditIs(s: string, c: nat, hex: string -> string)
    requires c < |s|
    ensures Sound(GroupEdit(s, c)) && Old(GroupEdit(s, c)) == s[c..GroupNext(s, c)] && New(GroupEdit(s, c), hex) == GroupText(s, c, hex)
  {
    hide LabelFirst, SpanEnd, DottedLabel, NormalizeLabel;
    if LabelFirst(s[c]) && '.' in s[c..GroupNext(s, c)] { LabelIsDotted(s, c); }
  }

  lemma {:induction false} GroupTurns(s: string, c: nat, hex: string -> string)
    requires c <= |s|
    ensures Turns(GroupEdits(s, c), s[c..GroupEnd(s, c)], GroupLabels(s, c, hex).0, hex)
    decreases |s| - c
  {
    hide Turns, GroupEdit, GroupNext, GroupText, GroupLabels, GroupEnd, Old, New, Sound;
    GroupEndTurn(s, c);
    if c == |s| {
      TurnsNone(hex);
      GroupAtEnd(s, hex);
      assert s[c..c] == [];
    } else if s[c] == ')' {
      GroupTurn(s, c, hex);
      OneKept(")", hex);
      assert s[c..c + 1] == ")";
    } else {
      var n := GroupNext(s, c);
      GroupTurn(s, c, hex);
      GroupTurns(s, n, hex);
      GroupEditIs(s, c, hex);
      TurnsCons(GroupEdit(s, c), GroupEdits(s, n), s[n..GroupEnd(s, n)], GroupLabels(s, n, hex).0, hex);
      assert s[c..GroupEnd(s, c)] == s[c..n] + s[n..GroupEnd(s, n)];
    }
  }

  lemma GroupEndTurn(s: string, c: nat)
    requires c <= |s|
    ensures GroupEnd(s, c) == if c == |s| then c else if s[c] == ')' then c + 1 else GroupEnd(s, GroupNext(s, c))
  {
    hide LabelFirst, SpanEnd;
  }

  lemma OneKept(t: string, hex: string -> string)
    ensures Turns([Keep(t)], t, t, hex)
  {
    hide Turns;
    TurnsOne(Keep(t), hex);
  }

  // ------------------------------------------------------------- the whole pass

  function DottedEdits(s: string, end: nat, name: string): seq<Edit>
    requires end <= |s|
  {
    var k := SkipSpace(s, end);
    if !MetricEvent(s, end) then [Keep(name)]
    else if CharAt(s, k, '{') then
      var a := SkipSpace(s, k + 1);
      if CharAt(s, a, '}') then [Metric(name, s[end..a + 1], '}')]
      else [Metric(name, s[end..k + 1], ',')] + MatchersEdits(s, k + 1)
    else [Metric(name, "", '}')]
  }

  function PieceEdits(s: string, c: nat): seq<Edit>
    requires c < |s|
  {
    if Quote(s[c]) then LiteralEdits(s, c)
    else if s[c] == '{' then [Keep("{")] + MatchersEdits(s, c + 1)
    else if MetricFirst(s[c]) then
      var end := SpanEnd(s, c + 1, true);
      if '.' in s[c..end] then DottedEdits(s, end, s[c..end])
      else if GroupingAt(s, c, end) then [Keep(s[c..GroupOpen(s, end)])] + GroupEdits(s, GroupOpen(s, end))
      else [Keep(s[c..end])]
    else [Keep([s[c]])]
  }

  /** The edits of the OTLP pass from position `c` on. */
  function OtlpEdits(s: string, c: nat): seq<Edit>
    requires c <= |s|
    decreases |s| - c
  {
    if c == |s| then [] else PieceEdits(s, c) + OtlpEdits(s, PieceEnd(s, c))
  }

  lemma {:induction false} SpaceUnquoted(s: string, c: nat)
    requires c <= |s|
    ensures NoQuotes(s[c..SkipSpace(s, c)])
    decreases |s| - c
  {
    var k := SkipSpace(s, c);
    if c < |s| && Whitespace(s[c]) {
      SpaceUnquoted(s, c + 1);
      SpaceIsPlain(s[c]);
      assert s[c..k] == [s[c]] + s[c + 1..k];
    }
  }

  lemma UnquotedJoin(a: string, b: string)
    requires NoQuotes(a) && NoQuotes(b)
    ensures NoQuotes(a + b)
  {
  }

  /** White space and one more character that is no quote. */
  lemma SpaceThen(s: string, c: nat, x: char)
    requires c <= |s| && CharAt(s, SkipSpace(s, c), x) && !Quote(x)
    ensures SkipSpace(s, c) < |s| && NoQuotes(s[c..SkipSpace(s, c) + 1])
  {
    hide SkipSpace;
    var k := SkipSpace(s, c);
    SpaceUnquoted(s, c);
    assert s[c..k + 1] == s[c..k] + [x];
  }

  lemma DottedTurns(s: string, end: nat, name: string, hex: string -> string)
    requires end <= |s| && DottedName(name)
    ensures var (w, n) := Dotted(s, end, name); Turns(DottedEdits(s, end, name), name + s[end..n], w, hex)
  {
    hide Turns, NamePrefix, Matchers, MatchersEdits, SkipSpace, CharAt, NoQuotes, DottedName, Quote;
    var k := SkipSpace(s, end);
    BracesUnquoted();
    if !MetricEvent(s, end) {
      OneKept(name, hex);
      assert name + s[end..end] == name;
    } else if CharAt(s, k, '{') {
      SpaceThen(s, end, '{');
      var a := SkipSpace(s, k + 1);
      if CharAt(s, a, '}') {
        SpaceThen(s, k + 1, '}');
        UnquotedJoin(s[end..k + 1], s[k + 1..a + 1]);
        assert s[end..a + 1] == s[end..k + 1] + s[k + 1..a + 1];
        TurnsOne(Metric(name, s[end..a + 1], '}'), hex);
      } else {
        var (v, e) := Matchers(s, k + 1);
        MatchersTurn(s, k + 1, hex);
        TurnsCons(Metric(name, s[end..k + 1], ','), MatchersEdits(s, k + 1), s[k + 1..e], v, hex);
        assert name + s[end..k + 1] + s[k + 1..e] == name + s[end..e];
      }
    } else {
      TurnsOne(Metric(name, "", '}'), hex);
      assert name + s[end..end] == name + "";
    }
  }

  lemma BracesUnquoted()
    ensures !Quote('{') && !Quote('}') && !Quote(',') && !Quote('(') && !Quote(')') && NoQuotes("")
  {
  }

  lemma NameIsDotted(s: string, c: nat)
    requires c < |s| && MetricFirst(s[c]) && '.' in s[c..SpanEnd(s, c + 1, true)]
    ensures DottedName(s[c..SpanEnd(s, c + 1, true)])
  {
    hide MetricFirst, SpanEnd;
    NameIsWord(s, c, true);
    assert s[c..SpanEnd(s, c + 1, true)][0] == s[c];
  }

  lemma Parts(s: string, a: nat, b: nat, c: nat)
    requires a <= b <= c <= |s|
    ensures s[a..b] + s[b..c] == s[a..c]
  {
  }

  lemma ClauseTurns(s: string, c: nat, end: nat, hex: string -> string)
    requires c <= end <= |s|
    ensures var open := GroupOpen(s, end);
            var (w, e) := GroupLabels(s, open, hex);
            && e == GroupEnd(s, open)
            && Turns([Keep(s[c..open])] + GroupEdits(s, open), s[c..e], s[c..end] + s[end..open] + w, hex)
  {
    hide Turns, GroupLabels, GroupEdits, GroupOpen, GroupEnd;
    var open := GroupOpen(s, end);
    var e := GroupEnd(s, open);
    GroupTurns(s, open, hex);
    GroupEnds(s, open, hex);
    KeepThen(s[c..open], GroupEdits(s, open), s[open..e], GroupLabels(s, open, hex).0, hex);
    Parts(s, c, end, open);
    Parts(s, c, open, e);
  }

  lemma NameTurns(s: string, c: nat, hex: string -> string)
    requires c < |s| && MetricFirst(s[c]) && !Quote(s[c]) && s[c] != '{'
    ensures Turns(PieceEdits(s, c), s[c..PieceEnd(s, c)], OtlpPiece(s, c, hex).0, hex) && OtlpPiece(s, c, hex).1 == PieceEnd(s, c)
  {
    hide Turns, MetricFirst, SpanEnd, Dotted, DottedEdits, DottedName, GroupLabels, GroupEdits, GroupingAt, GroupOpen, CopyBody, Matchers,
         GroupEnd, Quote, LiteralEdits, MatchersEdits;
    var end := SpanEnd(s, c + 1, true);
    if '.' in s[c..end] {
      NameIsDotted(s, c);
      DottedTurns(s, end, s[c..end], hex);
      Parts(s, c, end, Dotted(s, end, s[c..end]).1);
    } else if GroupingAt(s, c, end) {
      ClauseTurns(s, c, end, hex);
    } else {
      OneKept(s[c..end], hex);
    }
  }

  lemma PieceTurns(s: string, c: nat, hex: string -> string)
    requires c < |s|
    ensures Turns(PieceEdits(s, c), s[c..PieceEnd(s, c)], OtlpPiece(s, c, hex).0, hex) && OtlpPiece(s, c, hex).1 == PieceEnd(s, c)
  {
    hide *;
    PieceCases(s, c, hex);
    EditCases(s, c);
    if Quote(s[c]) {
      LiteralTurns(s, c, hex);
    } else if s[c] == '{' {
      var (v, e) := Matchers(s, c + 1);
      MatchersTurn(s, c + 1, hex);
      KeepThen("{", MatchersEdits(s, c + 1), s[c + 1..e], v, hex);
      assert s[c..e] == ['{'] + s[c + 1..e];
    } else if MetricFirst(s[c]) {
      NameTurns(s, c, hex);
    } else {
      OneKept([s[c]], hex);
      assert s[c..c + 1] == [s[c]];
    }
  }

  lemma EditCases(s: string, c: nat)
    requires c < |s|
    ensures Quote(s[c]) ==> PieceEdits(s, c) == LiteralEdits(s, c) && PieceEnd(s, c) == c + 1 + CopyBody(s[c], s[c + 1..]).1
    ensures !Quote(s[c]) && s[c] == '{' ==> PieceEdits(s, c) == [Keep("{")] + MatchersEdits(s, c + 1) && PieceEnd(s, c) == Matchers(s, c + 1).1
    ensures !Quote(s[c]) && s[c] != '{' && !MetricFirst(s[c]) ==> PieceEdits(s, c) == [Keep([s[c]])] && PieceEnd(s, c) == c + 1
  {
    hide CopyBody, Matchers, Dotted, GroupEnd, GroupingAt, LiteralEdits, MatchersEdits, DottedEdits, GroupEdits;
  }

  lemma KeepThen(t: string, b: seq<Edit>, p: string, m: string, hex: string -> string)
    requires Turns(b, p, m, hex)
    ensures Turns([Keep(t)] + b, t + p, t + m, hex)
  {
    hide Turns;
    TurnsCons(Keep(t), b, p, m, hex);
  }

  /** Carried out on the text, these edits give what the pass writes. */
  lemma {:induction false} OtlpTurns(s: string, c: nat, hex: string -> string)
    requires c <= |s|
    ensures Turns(OtlpEdits(s, c), s[c..], Otlp(s, c, hex), hex)
    decreases |s| - c
  {
    hide Turns, PieceEdits, PieceEnd, OtlpPiece;
    if c == |s| {
      TurnsNone(hex);
    } else {
      var n := PieceEnd(s, c);
      PieceTurns(s, c, hex);
      OtlpTurns(s, n, hex);
      TurnsJoin(PieceEdits(s, c), s[c..n], OtlpPiece(s, c, hex).0, OtlpEdits(s, n), s[n..], Otlp(s, n, hex), hex);
      assert s[c..] == s[c..n] + s[n..];
    }
  }
}
