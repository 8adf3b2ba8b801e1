/** A grouping clause whose only label is quoted: where its literal survives both passes and
    where it does not. */
module PromqlQuotedLabels {
  import opened PromqlText
  import opened PromqlRewrite
  import opened PromqlAgain
  import opened PromqlOtlpAgain
  import opened PromqlLexer
  import opened PromqlEdits
  import opened PromqlLiterals
  import opened PromqlClauses
  import opened PromqlPasses

  function QuotedClause(u: string): string { ['b', 'y', ' ', '(', '"'] + u + ['"', ')'] }

  lemma Shape(u: string)
    ensures var s := QuotedClause(u);
            && |s| == |u| + 7 && s[0..2] == ['b', 'y'] && s[2] == ' ' && s[3] == '(' && s[4] == '"' && s[4..] == ['"'] + u + ['"', ')']
            && GoesOn(s, 5, u, ['"', ')']) && s[5 + |u|] == '"' && s[6 + |u|] == ')' && (forall i :: 0 <= i < |u| ==> s[5 + i] == u[i])
  {
    var s := QuotedClause(u);
    assert s[5..] == u + ['"', ')'];
  }

  lemma ClauseIsAt(u: string)
    ensures var s := QuotedClause(u);
            |s| == |u| + 7 && ClauseAt(s, 0) && LabelsAt(s, 0) == 4 && SpanEnd(s, 1, true) == 2 && !Quote(s[0]) && s[0] != '{'
  {
    hide QuotedClause;
    var s := QuotedClause(u);
    Shape(u);
    assert s[0] == s[0..2][0] && s[1] == s[0..2][1];
    assert SpanEnd(s, 2, true) == 2;
    assert SkipSpace(s, 3) == 3;
    assert s[0..2] == "by";
    assert GroupOpen(s, 3) == 4;
  }

  /** What the literal of such a clause spells. */
  lemma ClauseSpells(u: string)
    requires Bare(u)
    ensures Spells(Code, QuotedClause(u)) == NameTokens(u)
  {
    hide After, Emitted, Bare, Units, Spells;
    var s := QuotedClause(u);
    var head, tail := ['b', 'y', ' ', '(', '"'], ['"', ')'];
    assert s == head + (u + tail);
    SpellsJoin(Code, head, u + tail);
    SpellsJoin(Body('"'), u, tail);
    BareInside(u);
    HeadAndTail();
    Regroup([Opening('"')], Units(Chars(u)), [Closing]);
  }

  lemma HeadAndTail()
    ensures Emitted(Code, ['b', 'y', ' ', '(', '"']) == [Opening('"')] && After(Code, ['b', 'y', ' ', '(', '"']) == Body('"')
    ensures Spells(Body('"'), ['"', ')']) == [Closing]
  {
    hide After, Emitted;
    var head := ['b', 'y', ' ', '('];
    assert ['b', 'y', ' ', '(', '"'] == head + ['"'] && ['"', ')'] == ['"'] + [')'];
    PlainCode(head);
    LexJoin(Code, head, ['"']);
    LexOne(Code, '"');
    SpellsJoin(Body('"'), ['"'], [')']);
    LexOne(Body('"'), '"');
    PlainCode([')']);
  }

  lemma {:induction false} BareBody(u: string)
    requires Bare(u)
    ensures var body := u + ['"']; CopyBody('"', body) == (body, |body|) && Closed('"', body)
    decreases |u|
  {
    hide CopyBody, Closed, Escaped;
    var body := u + ['"'];
    BodyTurn('"', body);
    if u == [] {
      assert body == ['"'];
    } else {
      BareBody(u[1..]);
      assert body[1..] == u[1..] + ['"'];
      assert body == [u[0]] + body[1..];
    }
  }

  /** The alias pass finds nothing to do. */
  lemma ClauseAliased(u: string)
    requires Bare(u)
    ensures Aliased(QuotedClause(u), 0) == QuotedClause(u)
  {
    hide Aliased, AliasQuiet, QuotedClause, GoesOn, CopyBody, Closed, Bare, AliasAt;
    var s := QuotedClause(u);
    var body := u + ['"'];
    Shape(u);
    BareBody(u);
    assert s[0] == s[0..2][0] && s[1] == s[0..2][1];
    assert s[4..] == ['"'] + body + [')'];
    LiteralTurn(s, 4, '"', body, [')']);
    EndQuiet(s, |s|);
    QuietAt(s, 6 + |u|);
    QuietAt(s, 3);
    QuietAt(s, 2);
    QuietAt(s, 1);
    QuietAt(s, 0);
    AliasKept(s, 0);
    assert s[0..] == s;
  }

  lemma QuietAt(s: string, k: nat)
    requires k < |s| && s[k] != 'h' && !Quote(s[k])
    ensures AliasQuiet(s, k) == AliasQuiet(s, k + 1)
  {
    hide AliasQuiet;
    NotOldName(s, k);
    PlainTurn(s, k);
  }

  // ------------------------------------------------------------- a label alone

  predicate Label(v: string) { v != [] && LabelFirst(v[0]) && Word(v, false) }

  lemma LabelIsBare(v: string)
    requires Label(v)
    ensures Bare(v) && Word(v[1..], false) && Stops(['"', ')'], false) && !LabelFirst('"')
  {
  }

  /** The turns of such a clause. */
  lemma LabelTurns(v: string)
    requires Label(v)
    ensures var s := QuotedClause(v);
            && |s| == |v| + 7 && s[4] == '"' && s[5] == v[0] && LabelFirst(s[5]) && GroupNext(s, 4) == 5 && GroupNext(s, 5) == 5 + |v|
            && s[5..5 + |v|] == v && GroupNext(s, 5 + |v|) == 6 + |v| && s[5 + |v|] == '"' && s[6 + |v|] == ')'
  {
    hide QuotedClause, GoesOn, Word;
    var s := QuotedClause(v);
    Shape(v);
    LabelIsBare(v);
    NameAgain(s, 5, v, ['"', ')'], false);
  }

  lemma LabelClause(v: string)
    requires Label(v)
    ensures var s := QuotedClause(v);
            && |s| == |v| + 7 && GroupEnd(s, 4) == |s| && Aligned(s, 0) && (DotsOutside(s, 0) <==> '.' !in v)
  {
    hide QuotedClause, ClauseAt, LabelsAt, GroupNext, Word, Label, Outside, GroupEnd, PieceEnd;
    var s := QuotedClause(v);
    ClauseIsAt(v);
    LabelTurns(v);
    LabelOutside(v);
    ClauseEdits(s, 0);
    NothingFollows(s);
  }

  lemma LabelOutside(v: string)
    requires Label(v)
    ensures var s := QuotedClause(v); |s| == |v| + 7 && GroupEnd(s, 4) == |s| && (Outside(s, 4, Code) <==> '.' !in v)
  {
    hide QuotedClause, GroupNext, Word, Label, After, GroupEnd, Outside;
    var s := QuotedClause(v);
    LabelTurns(v);
    LabelIsBare(v);
    TurnOf(s, 4, Code);
    TurnOf(s, 5, Body('"'));
    TurnOf(s, 5 + |v|, Body('"'));
    assert s[4..5] == ['"'];
    LexOne(Code, '"');
    BareInside(v);
    ClosesAt(s, 6 + |v|, After(Body('"'), s[5 + |v|..6 + |v|]));
  }

  lemma ClosesAt(s: string, c: nat, st: Lex)
    requires c < |s| && s[c] == ')'
    ensures GroupEnd(s, c) == c + 1 && Outside(s, c, st)
  {
  }

  /** The OTLP pass writes the label as the clause calls for it. */
  lemma LabelOtlp(v: string, hex: string -> string)
    requires Label(v)
    ensures Otlp(QuotedClause(v), 0, hex) == QuotedClause(GroupWord(v, hex))
  {
    hide QuotedClause, GroupLabels, GroupNext, Word, Label, GroupWord, GroupClosed, Otlp, OtlpPiece;
    var s := QuotedClause(v);
    LabelTurns(v);
    LabelIsBare(v);
    GroupTurn(s, 4, hex);
    GroupTurn(s, 5, hex);
    GroupTurn(s, 5 + |v|, hex);
    GroupTurn(s, 6 + |v|, hex);
    LabelNext(s, 5);
    var n := GroupWord(v, hex);
    assert GroupText(s, 4, hex) == ['"'] && GroupText(s, 5, hex) == n && GroupText(s, 5 + |v|, hex) == ['"'];
    assert GroupLabels(s, 5 + |v|, hex).0 == ['"'] + ")";
    assert GroupLabels(s, 5, hex).0 == n + (['"'] + ")");
    assert GroupLabels(s, 4, hex).0 == ['"'] + (n + (['"'] + ")"));
    LabelClause(v);
    GroupEnds(s, 4, hex);
    ClauseOtlp(v, hex);
    assert ['b', 'y', ' ', '('] + (['"'] + (n + (['"'] + ")"))) == QuotedClause(n) by { ClauseText(n); }
  }

  lemma ClauseText(n: string)
    ensures QuotedClause(n) == ['b', 'y', ' ', '('] + (['"'] + (n + (['"'] + ")")))
  {
  }

  lemma ClauseOtlp(u: string, hex: string -> string)
    requires GroupLabels(QuotedClause(u), 4, hex).1 == |QuotedClause(u)|
    ensures Otlp(QuotedClause(u), 0, hex) == ['b', 'y', ' ', '('] + GroupLabels(QuotedClause(u), 4, hex).0
  {
    hide QuotedClause, GroupLabels, SpanEnd, GroupingAt, GroupOpen, CopyBody, Matchers, Dotted;
    var s := QuotedClause(u);
    ClauseIsAt(u);
    Shape(u);
    OtlpEnds(s, hex);
    var n := GroupLabels(s, 4, hex).0;
    assert s[2..4] == [' ', '('];
    assert OtlpPiece(s, 0, hex) == (s[0..2] + s[2..4] + n, |s|);
    assert Otlp(s, 0, hex) == s[0..2] + s[2..4] + n + [];
  }

  /** A quoted label without a dot survives: neither pass changes anything. */
  lemma QuotedLabelStays(v: string, hex: string -> string)
    requires Label(v) && '.' !in v
    ensures var s := QuotedClause(v);
            Aligned(s, 0) && DotsOutside(s, 0) && Aliased(s, 0) == s && Otlp(s, 0, hex) == s && Spells(Code, s) == NameTokens(v)
  {
    hide QuotedClause, Aliased, Otlp, Spells, NameTokens, Label, Aligned, DotsOutside;
    LabelIsBare(v);
    LabelClause(v);
    ClauseAliased(v);
    LabelOtlp(v, hex);
    ClauseSpells(v);
  }

  /** A quoted label with a dot does not: the alias pass changes nothing, the OTLP pass
      quotes no name, and yet the literal spells another label afterwards. */
  lemma QuotedLabelChanges(v: string, hex: string -> string)
    requires DottedLabel(v) && Fingerprints(hex)
    ensures var s := QuotedClause(v);
            && Aligned(s, 0) && !DotsOutside(s, 0) && Aliased(s, 0) == s
            && Spells(Code, s) == NameTokens(v)
            && Spells(Code, Otlp(s, 0, hex)) == NameTokens(NormalizeLabel(v, hex))
            && NormalizeLabel(v, hex) != v
  {
    hide QuotedClause, Aliased, Otlp, Spells, NameTokens, NormalizeLabel, Aligned, DotsOutside, Fingerprints, Word;
    LabelIsBare(v);
    LabelClause(v);
    ClauseAliased(v);
    LabelOtlp(v, hex);
    ClauseSpells(v);
    NormalizedIsLabel(v, hex);
    LabelIsWord(NormalizeLabel(v, hex));
    WordIsBare(NormalizeLabel(v, hex));
    ClauseSpells(NormalizeLabel(v, hex));
  }

  // ------------------------------------------------- a parenthesis in the literal

  /** A parenthesis before the label ends the clause inside the literal. */
  function AfterParen(v: string): string { ['a', ')'] + v }

  lemma ParenShape(v: string)
    requires Label(v)
    ensures var s := QuotedClause(AfterParen(v));
            && |s| == |v| + 9 && s[4..7] == ['"', 'a', ')'] && s[7] == v[0] && GoesOn(s, 7, v, ['"', ')']) && s[7 + |v|] == '"'
            && Bare(AfterParen(v))
  {
    LabelIsBare(v);
    Shape(AfterParen(v));
    var s := QuotedClause(AfterParen(v));
    assert s == ['b', 'y', ' ', '(', '"', 'a', ')'] + (v + ['"', ')']);
    assert s[7..] == v + ['"', ')'];
  }

  lemma ParenEndsClause(v: string)
    requires Label(v)
    ensures var s := QuotedClause(AfterParen(v));
            |s| == |v| + 9 && ClauseAt(s, 0) && LabelsAt(s, 0) == 4 && GroupEnd(s, 4) == 7 && After(Code, s[4..7]) == Body('"')
  {
    hide QuotedClause, Label, ClauseAt, LabelsAt, GoesOn;
    var s := QuotedClause(AfterParen(v));
    ClauseIsAt(AfterParen(v));
    ParenShape(v);
    assert s[4] == s[4..7][0] && s[5] == s[4..7][1] && s[6] == s[4..7][2];
    assert GroupEnd(s, 6) == 7;
    assert SpanEnd(s, 6, false) == 6;
    assert GroupEnd(s, 5) == 7;
    assert ['"', 'a', ')'][1..] == ['a', ')'] && ['a', ')'][1..] == [')'];
    LexOne(Body('"'), ')');
  }

  /** Such a clause is not aligned, whatever the label is. */
  lemma ParenMisaligned(v: string)
    requires Label(v)
    ensures !Aligned(QuotedClause(AfterParen(v)), 0)
  {
    hide QuotedClause, Label, ClauseAt, LabelsAt, GroupEnd, After, PieceEnd;
    ParenEndsClause(v);
  }

  /** With a dotted label behind the parenthesis the literal is lost: the pass takes the
      label for a metric name and writes a name matcher into the literal. */
  lemma ParenLosesLiteral(v: string, hex: string -> string)
    requires DottedLabel(v) && Fingerprints(hex)
    ensures var s := QuotedClause(AfterParen(v));
            && Aliased(s, 0) == s && Woven(OtlpEdits(s, 0), Code, false) == NameTokens(AfterParen(v))
            && Spells(Code, Otlp(s, 0, hex)) != Woven(OtlpEdits(s, 0), Code, true)
  {
    hide QuotedClause, Aliased, Otlp, OtlpEdits, Spells, NameTokens, Woven, Kept, DottedLabel, Fingerprints, AfterParen;
    var s := QuotedClause(AfterParen(v));
    DottedIsLabel(v);
    ParenShape(v);
    ClauseAliased(AfterParen(v));
    ClauseSpells(AfterParen(v));
    LiteralsSurvive(s, hex);
    MetricInLiteral(v);
  }

  lemma DottedIsLabel(v: string)
    requires DottedLabel(v)
    ensures Label(v) && MetricFirst(v[0]) && Word(v[1..], true) && Stops(['"', ')'], true) && '.' in v && !Whitespace('"')
  {
  }

  lemma MetricInLiteral(v: string)
    requires DottedLabel(v)
    ensures !Kept(OtlpEdits(QuotedClause(AfterParen(v)), 0), Code)
  {
    hide QuotedClause, Label, Kept, DottedLabel, AfterParen, ClauseAt, LabelsAt, GroupEnd, PieceEnd, PieceEdits, After, Olds;
    var s := QuotedClause(AfterParen(v));
    DottedIsLabel(v);
    ParenEndsClause(v);
    ClauseEdits(s, 0);
    KeptJoin(PieceEdits(s, 0), OtlpEdits(s, 7), Code);
    PieceOlds(s, 0);
    AfterClause(v);
    MetricEdit(v);
    KeptJoin(PieceEdits(s, 7), OtlpEdits(s, PieceEnd(s, 7)), Body('"'));
    KeptSingle(Metric(v, "", '}'), Body('"'));
  }

  lemma AfterClause(v: string)
    requires Label(v)
    ensures |QuotedClause(AfterParen(v))| == |v| + 9 && After(Code, QuotedClause(AfterParen(v))[0..7]) == Body('"')
  {
    hide QuotedClause, Label, ClauseAt, LabelsAt, GroupEnd, After, NoQuotes;
    var s := QuotedClause(AfterParen(v));
    ParenEndsClause(v);
    KeywordPlain(s, 0);
    PlainCode(s[0..4]);
    Parts(s, 0, 4, 7);
    LexJoin(Code, s[0..4], s[4..7]);
  }

  lemma MetricEdit(v: string)
    requires DottedLabel(v)
    ensures var s := QuotedClause(AfterParen(v)); |s| == |v| + 9 && PieceEdits(s, 7) == [Metric(v, "", '}')]
  {
    hide QuotedClause, Label, DottedLabel, AfterParen, GoesOn, Word, GroupingAt, CopyBody, Matchers, MatchersEdits, LiteralEdits, GroupEdits;
    var s := QuotedClause(AfterParen(v));
    DottedIsLabel(v);
    ParenShape(v);
    NameAgain(s, 7, v, ['"', ')'], true);
    MetricIsNoQuote(s[7]);
    assert SkipSpace(s, 7 + |v|) == 7 + |v|;
  }

  /** Without a dot behind it nothing is rewritten, so that no clause ending inside a literal
      is not needed for a literal to survive. */
  lemma ParenKeepsLiteral(v: string, hex: string -> string)
    requires Label(v) && '.' !in v && Undotted(hex)
    ensures var s := QuotedClause(AfterParen(v)); !Aligned(s, 0) && Aliased(s, 0) == s && Otlp(s, 0, hex) == s
  {
    hide QuotedClause, Label, AfterParen, Aligned, Aliased, Otlp, OtlpQuiet, Bare, Undotted;
    var s := QuotedClause(AfterParen(v));
    ParenMisaligned(v);
    ParenShape(v);
    ClauseAliased(AfterParen(v));
    NoDots(v);
    PlainOtlp(s, 0);
    IdentityIff(s, hex);
  }

  lemma NoDots(v: string)
    requires Label(v) && '.' !in v
    ensures OnlyStandardEscapes(QuotedClause(AfterParen(v))) && '.' !in QuotedClause(AfterParen(v))
  {
    LabelIsBare(v);
  }
}
