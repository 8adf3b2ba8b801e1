/** What the two passes make of the forms they are there for. */
module PromqlForms {
  import opened PromqlText
  import opened PromqlRewrite
  import opened PromqlAgain
  import opened PromqlOtlpAgain
  import opened PromqlLexer
  import opened PromqlEdits
  import opened PromqlLiterals

  // ------------------------------------------------------------------- aliases

  /** A call of the old function becomes a call of the new one. */
  lemma OldCallRenamed(t: string)
    ensures var s := "holt_winters(" + t; Aliased(s, 0) == "double_exponential_smoothing" + Aliased(s, 12)
  {
    hide Aliased;
    var s := "holt_winters(" + t;
    assert s[0..12] == "holt_winters" && s[12] == '(';
    assert SkipSpace(s, 12) == 12;
    assert AliasAt(s, 0);
    assert s[0] == s[0..12][0];
    AliasedTurn(s, 0);
  }

  lemma AliasedTurn(s: string, c: nat)
    requires c < |s|
    ensures Aliased(s, c) == AliasPiece(s, c).0 + Aliased(s, AliasPiece(s, c).1)
  {
    hide AliasPiece;
  }

  /** Where the name only ends or begins like it, or is not called, it stays. */
  lemma OtherNamesStay(s: string, c: nat)
    requires c + 12 < |s| && s[c..c + 12] == "holt_winters"
    requires (c > 0 && MetricRest(s[c - 1])) || !CharAt(s, SkipSpace(s, c + 12), '(')
    ensures AliasPiece(s, c) == ([s[c]], c + 1)
  {
    hide CopyBody, SkipSpace;
    assert s[c] == s[c..c + 12][0];
  }

  // ------------------------------------------------------------- escaped characters

  /** An escaped slash loses its backslash; a standard escape stays; of any other the
      backslash is doubled. */
  lemma EscapeForms(e: char)
    ensures e == '/' ==> Escaped(e) == "/"
    ensures e in {'a', 'b', 'f', 'n', 'r', 't', 'v', '\\', '"', '\'', 'x', 'u', 'U'} ==> Escaped(e) == ['\\', e]
    ensures e in {'0', '1', '2', '3', '4', '5', '6', '7'} ==> Escaped(e) == ['\\', e]
    ensures e in {'d', 'w', 's', 'D', 'W', 'S', '.', '-', '8', '9', '`', ' '} ==> Escaped(e) == ['\\', '\\', e]
  {
  }

  // ------------------------------------------------------------------ metric names

  /** The name matcher that stands for a dotted metric name. */
  lemma NameMatcherIs(v: string)
    requires Word(v, true)
    ensures NamePrefix(v) == "{__name__=\"" + v + "\""
  {
    hide Word, QuotedChars;
    QuotedName(v);
  }

  lemma DottedTurn(s: string, v: string, t: string, hex: string -> string)
    requires s == v + t && DottedName(v) && Stops(t, true)
    ensures |v| <= |s| && OtlpPiece(s, 0, hex) == Dotted(s, |v|, v)
  {
    hide Dotted, Word, Stops, CopyBody, Matchers, GroupLabels, GroupingAt, GroupOpen, SpanEnd;
    assert GoesOn(s, 0, v, t);
    TailIsWord(v);
    NameAgain(s, 0, v, t, true);
    MetricIsNoQuote(v[0]);
  }

  lemma TailIsWord(v: string)
    requires Word(v, true) && v != []
    ensures Word(v[1..], true)
  {
  }

  /** A dotted metric name by itself. */
  lemma MetricAlone(v: string, hex: string -> string)
    requires DottedName(v)
    ensures Otlp(v, 0, hex) == "{__name__=\"" + v + "\"}"
  {
    hide Word, NamePrefix, OtlpPiece, Matchers;
    assert v == v + [];
    DottedTurn(v, v, [], hex);
    NameMatcherIs(v);
    assert SkipSpace(v, |v|) == |v|;
    OtlpOnce(v, hex);
  }

  lemma OtlpOnce(s: string, hex: string -> string)
    requires s != [] && OtlpPiece(s, 0, hex).1 == |s|
    ensures Otlp(s, 0, hex) == OtlpPiece(s, 0, hex).0
  {
    hide OtlpPiece;
    OtlpEnds(s, hex);
    assert OtlpPiece(s, 0, hex).0 + [] == OtlpPiece(s, 0, hex).0;
  }

  /** With empty braces: the same. */
  lemma MetricWithBraces(v: string, hex: string -> string)
    requires DottedName(v)
    ensures Otlp(v + "{}", 0, hex) == "{__name__=\"" + v + "\"}"
  {
    hide Word, NamePrefix, OtlpPiece, Matchers;
    var s := v + "{}";
    assert Stops("{}", true);
    DottedTurn(s, v, "{}", hex);
    NameMatcherIs(v);
    assert SkipSpace(s, |v|) == |v| && SkipSpace(s, |v| + 1) == |v| + 1;
    OtlpOnce(s, hex);
  }

  /** With matchers: the name matcher comes first, then the others. */
  lemma MetricWithMatchers(v: string, t: string, hex: string -> string)
    requires DottedName(v) && t != [] && t[0] != '}' && !Whitespace(t[0])
    ensures var s := v + "{" + t; Otlp(s, 0, hex) == "{__name__=\"" + v + "\"," + Matchers(s, |v| + 1).0 + Otlp(s, Matchers(s, |v| + 1).1, hex)
  {
    hide Word, NamePrefix, OtlpPiece, Matchers, Otlp, Dotted, DottedName, Whitespace, Stops;
    var s := v + "{" + t;
    Spelled();
    Regroup(v, "{", t);
    BraceBehind(s, v, t);
    DottedTurn(s, v, ['{'] + t, hex);
    DottedBrace(s, |v|, v);
    DottedNameWord(v);
    NameMatcherIs(v);
    OtlpTurn(s, hex);
    assert "{__name__=\"" + v + "\"" + "," == "{__name__=\"" + v + "\",";
  }

  lemma DottedNameWord(v: string)
    requires DottedName(v)
    ensures Word(v, true)
  {
  }

  lemma BraceBehind(s: string, v: string, t: string)
    requires s == v + (['{'] + t) && t != [] && !Whitespace(t[0])
    ensures Stops(['{'] + t, true) && |s| > |v| + 1 && s[|v|] == '{' && s[|v| + 1] == t[0]
    ensures SkipSpace(s, |v|) == |v| && SkipSpace(s, |v| + 1) == |v| + 1
  {
    hide Whitespace, SkipSpace;
    assert s[|v|] == '{' && s[|v| + 1] == t[0];
    MarksNoSpace();
    NoSkip(s, |v|);
    NoSkip(s, |v| + 1);
    assert (['{'] + t)[0] == '{';
  }

  /** Short texts as lists of characters. */
  lemma Spelled()
    ensures "{" == ['{'] && "(" == ['('] && " (" == [' ', '('] && ")" == [')'] && "{}" == ['{', '}']
  {
  }

  lemma NoSkip(s: string, c: nat)
    requires c < |s| && !Whitespace(s[c])
    ensures SkipSpace(s, c) == c
  {
  }

  lemma OneSpace(s: string, c: nat)
    requires c + 1 < |s| && s[c] == ' ' && !Whitespace(s[c + 1])
    ensures SkipSpace(s, c) == c + 1
  {
    NoSkip(s, c + 1);
  }

  lemma MarksNoSpace()
    ensures !Whitespace('{') && !Whitespace('(') && !Whitespace(')') && !Whitespace('}')
  {
  }

  lemma DottedBrace(s: string, end: nat, name: string)
    requires end + 1 < |s| && s[end] == '{' && s[end + 1] != '}' && SkipSpace(s, end) == end && SkipSpace(s, end + 1) == end + 1
    ensures Dotted(s, end, name) == (NamePrefix(name) + "," + Matchers(s, end + 1).0, Matchers(s, end + 1).1)
  {
    hide SkipSpace, NamePrefix, Matchers;
  }

  lemma OtlpTurn(s: string, hex: string -> string)
    requires s != []
    ensures Otlp(s, 0, hex) == OtlpPiece(s, 0, hex).0 + Otlp(s, OtlpPiece(s, 0, hex).1, hex)
  {
    hide OtlpPiece;
  }

  /** A dotted name that is called stays as it is. */
  lemma CalledNameStays(v: string, t: string, hex: string -> string)
    requires DottedName(v)
    ensures var s := v + "(" + t; Otlp(s, 0, hex) == v + Otlp(s, |v|, hex)
  {
    hide Word, NamePrefix, OtlpPiece, Matchers, Otlp;
    var s := v + "(" + t;
    assert s == v + (['('] + t) && Stops(['('] + t, true);
    DottedTurn(s, v, ['('] + t, hex);
    assert SkipSpace(s, |v|) == |v|;
    OtlpTurn(s, hex);
  }

  // ---------------------------------------------------------------- label matchers

  predicate Operator(op: string) { op == "=" || op == "!=" || op == "=~" || op == "!~" }

  /** A dotted label before an operator is put into quotes. */
  lemma MatcherQuoted(v: string, op: string, t: string)
    requires DottedLabel(v) && Operator(op)
    ensures var s := v + op + t; |v| <= |s| && MatcherPiece(s, 0) == ("\"" + v + "\"", |v|)
  {
    hide Word, QuotedChars, CopyBody, SpanEnd, GoesOn, DottedLabel;
    var s := v + op + t;
    LabelFacts(v);
    OperatorFacts(op);
    assert s == v + (op + t) && GoesOn(s, 0, v, op + t) by { GoesOnAtOnce(s, v, op + t); }
    assert Stops(op + t, false) by { assert (op + t)[0] == op[0]; }
    NameAgain(s, 0, v, op + t, false);
    QuotedName(v);
    OperatorThere(s, |v|, op, t);
  }

  lemma GoesOnAtOnce(s: string, v: string, t: string)
    requires s == v + t
    ensures GoesOn(s, 0, v, t)
  {
    assert s[0..] == s;
  }

  lemma LabelFacts(v: string)
    requires DottedLabel(v)
    ensures v != [] && LabelFirst(v[0]) && !Quote(v[0]) && v[0] != '}' && '.' in v && Word(v[1..], false) && Word(v, true)
  {
  }

  lemma OperatorFacts(op: string)
    requires Operator(op)
    ensures op != [] && !SpanChar(op[0], false) && !Whitespace(op[0])
  {
  }

  lemma OperatorThere(s: string, n: nat, op: string, t: string)
    requires Operator(op) && n <= |s| && s[n..] == op + t
    ensures OperatorAt(s, SkipSpace(s, n))
  {
    OperatorFacts(op);
    assert s[n] == s[n..][0] == op[0];
    if |op| == 2 { assert s[n + 1] == s[n..][1] == op[1]; }
  }

  /** A dotted word before anything else, a comma say, stays. */
  lemma OtherWordStays(v: string, t: string)
    requires DottedLabel(v) && Stops(t, false) && !OperatorAt(v + t, SkipSpace(v + t, |v|))
    ensures |v| <= |v + t| && MatcherPiece(v + t, 0) == (v, |v|)
  {
    hide Word, Quoted, CopyBody, SpanEnd, GoesOn, DottedLabel, SkipSpace, OperatorAt;
    LabelFacts(v);
    GoesOnAtOnce(v + t, v, t);
    NameAgain(v + t, 0, v, t, false);
  }

  // ---------------------------------------------------------------- grouping labels

  /** A normalized label: every dot is an underscore, a leading double underscore gets the
      prefix `otel_`, and the fingerprint of the label follows. */
  lemma NormalizedIs(v: string, hex: string -> string)
    requires DottedLabel(v)
    ensures var plain := seq(|v|, i requires 0 <= i < |v| => if v[i] == '.' then '_' else v[i]);
            NormalizeLabel(v, hex) == (if |v| >= 2 && plain[0] == '_' && plain[1] == '_' then "otel_" else "") + plain + "_x" + hex(v)
  {
    var plain := seq(|v|, i requires 0 <= i < |v| => if v[i] == '.' then '_' else v[i]);
    assert Allowed(v) == plain;
    assert plain[0] == v[0];
    assert "__" <= plain <==> |v| >= 2 && plain[0] == '_' && plain[1] == '_' by { DoubleUnderscore(plain); }
    assert "__" <= "__name__";
    assert plain != v by { var i :| 0 <= i < |v| && v[i] == '.'; assert plain[i] == '_'; }
    assert "otel_" + plain != v;
    assert "" + plain == plain;
  }

  lemma DoubleUnderscore(s: string)
    ensures "__" <= s <==> |s| >= 2 && s[0] == '_' && s[1] == '_'
  {
    if |s| >= 2 { assert s[..2] == [s[0], s[1]]; }
  }

  predicate Keyword(k: string) { k in {"by", "without", "on", "ignoring", "group_left", "group_right"} }

  /** A name without dots. */
  predicate PlainName(k: string) { k != [] && MetricFirst(k[0]) && Word(k, true) && '.' !in k }

  lemma KeywordFacts(k: string)
    requires Keyword(k)
    ensures PlainName(k) && GroupingKeyword(k)
  {
  }

  /** The turn at a name that an opening parenthesis follows. */
  lemma NameTurn(s: string, k: string, t: string, hex: string -> string)
    requires s == k + (" (" + t) && PlainName(k)
    ensures |s| == |k| + 2 + |t| && (GroupingAt(s, 0, |k|) <==> GroupingKeyword(k)) && GroupOpen(s, |k|) == |k| + 2
    ensures OtlpPiece(s, 0, hex) == if GroupingKeyword(k) then (k + " (" + GroupLabels(s, |k| + 2, hex).0, GroupLabels(s, |k| + 2, hex).1)
                                    else (k, |k|)
  {
    hide Word, CopyBody, Matchers, Dotted, GroupLabels, SpanEnd, GroupingKeyword, GoesOn, SkipSpace, GroupOpen, Stops, MetricFirst;
    Spelled();
    GoesOnAtOnce(s, k, " (" + t);
    ParenBehind(s, k, t);
    TailIsWord(k);
    NameAgain(s, 0, k, " (" + t, true);
    MetricIsNoQuote(k[0]);
  }

  lemma ParenBehind(s: string, k: string, t: string)
    requires s == k + ([' ', '('] + t)
    ensures Stops([' ', '('] + t, true) && |s| == |k| + 2 + |t| && s[|k|..|k| + 2] == [' ', '('] && s[|k| + 1] == '('
    ensures SkipSpace(s, |k|) == |k| + 1 && GroupOpen(s, |k|) == |k| + 2
  {
    hide Whitespace, SkipSpace, GroupOpen, Stops;
    SpaceEndsName([' ', '('] + t);
    SecondOf(s, k, ' ', '(', t);
    MarksNoSpace();
    OneSpace(s, |k|);
    OpenNext(s, |k|);
  }

  lemma SpaceEndsName(t: string)
    requires t != [] && (t[0] == ' ' || t[0] == ')')
    ensures Stops(t, true) && Stops(t, false)
  {
  }

  lemma SecondOf(s: string, k: string, a: char, b: char, t: string)
    requires s == k + ([a, b] + t)
    ensures |s| == |k| + 2 + |t| && s[|k|] == a && s[|k| + 1] == b && s[|k|..|k| + 2] == [a, b]
  {
  }

  lemma OpenNext(s: string, c: nat)
    requires c + 1 < |s| && s[c] == ' ' && s[c + 1] == '('
    ensures GroupOpen(s, c) == c + 2
  {
    assert GroupOpen(s, c + 1) == c + 2;
  }

  /** After each of the six keywords a dotted label is normalized. */
  lemma GroupingLabel(k: string, v: string, hex: string -> string)
    requires Keyword(k) && DottedLabel(v)
    ensures Otlp(k + " (" + v + ")", 0, hex) == k + " (" + NormalizeLabel(v, hex) + ")"
  {
    hide Word, NormalizeLabel, GroupLabels, OtlpPiece, GroupingKeyword, DottedLabel, PlainName, Keyword, Otlp;
    var s := k + " (" + v + ")";
    assert s == k + (" (" + (v + ")"));
    KeywordFacts(k);
    NameTurn(s, k, v + ")", hex);
    OneLabel(s, |k| + 2, v, hex);
    OtlpOnce(s, hex);
  }

  lemma OneLabel(s: string, c: nat, v: string, hex: string -> string)
    requires c <= |s| && s[c..] == v + ")" && DottedLabel(v)
    ensures GroupLabels(s, c, hex) == (NormalizeLabel(v, hex) + ")", |s|)
  {
    hide Word, NormalizeLabel, GroupLabels, SpanEnd, GoesOn, DottedLabel, GroupClosed;
    LabelFacts(v);
    assert GoesOn(s, c, v, ")") by { GoesOnHere(s, c, v, ")"); }
    assert Stops(")", false);
    NameAgain(s, c, v, ")", false);
    assert s[c + |v|] == s[c..][|v|] == ')';
    GroupTurn(s, c, hex);
    GroupTurn(s, c + |v|, hex);
    GroupEnds(s, c, hex);
    GroupEnds(s, c + |v|, hex);
    assert GroupEnd(s, c + |v|) == |s|;
    assert GroupEnd(s, c) == |s|;
  }

  lemma GoesOnHere(s: string, c: nat, v: string, t: string)
    requires c <= |s| && s[c..] == v + t
    ensures GoesOn(s, c, v, t)
  {
  }

  /** After any other name it is a metric name. */
  lemma OtherCall(k: string, v: string, hex: string -> string)
    requires PlainName(k) && !Keyword(k) && DottedName(v)
    ensures Otlp(k + " (" + v + ")", 0, hex) == k + " ({__name__=\"" + v + "\"})"
  {
    hide Word, Otlp, OtlpPiece, PlainName, NamePrefix, DottedName, Matchers;
    var s := k + " (" + v + ")";
    assert s == k + (" (" + (v + ")"));
    assert !GroupingKeyword(k);
    NameTurn(s, k, v + ")", hex);
    OtlpTurn(s, hex);
    RestOfCall(s, |k|, v, hex);
    assert s[0..|k|] == k;
    assert k + (" ({__name__=\"" + v + "\"})") == k + " ({__name__=\"" + v + "\"})";
  }

  lemma RestOfCall(s: string, c: nat, v: string, hex: string -> string)
    requires c <= |s| && s[c..] == " (" + v + ")" && DottedName(v)
    ensures Otlp(s, c, hex) == " ({__name__=\"" + v + "\"})"
  {
    hide Word, Otlp, OtlpPiece, NamePrefix, DottedName, Dotted;
    assert s[c] == s[c..][0] == ' ' && s[c + 1] == s[c..][1] == '(' && |s| == c + |v| + 3;
    PlainPiece(s, c, hex);
    PlainPiece(s, c + 1, hex);
    assert s[c + 2..] == s[c..][2..] == v + ")";
    NameInside(s, c + 2, v, hex);
    var e := c + 2 + |v|;
    assert s[e] == s[c + 2..][|v|] == ')';
    PlainPiece(s, e, hex);
    OtlpEnds(s, hex);
    assert [' '] + (['('] + ("{__name__=\"" + v + "\"}" + ([')'] + []))) == " ({__name__=\"" + v + "\"})";
  }

  lemma PlainPiece(s: string, c: nat, hex: string -> string)
    requires c < |s| && (s[c] == ' ' || s[c] == '(' || s[c] == ')')
    ensures Otlp(s, c, hex) == [s[c]] + Otlp(s, c + 1, hex)
  {
    hide CopyBody, Matchers, Dotted, GroupLabels, GroupingAt;
  }

  lemma NameInside(s: string, c: nat, v: string, hex: string -> string)
    requires c <= |s| && s[c..] == v + ")" && DottedName(v)
    ensures Otlp(s, c, hex) == "{__name__=\"" + v + "\"}" + Otlp(s, c + |v|, hex)
  {
    hide Word, CopyBody, Matchers, GroupLabels, GroupingAt, SpanEnd, GoesOn, NamePrefix, SkipSpace, Whitespace, Stops, Dotted;
    GoesOnHere(s, c, v, ")");
    TailIsWord(v);
    SpaceEndsName(")");
    NameAgain(s, c, v, ")", true);
    MetricIsNoQuote(v[0]);
    assert s[c + |v|] == s[c..][|v|] == ')';
    MarksNoSpace();
    NoSkip(s, c + |v|);
    DottedAlone(s, c + |v|, v);
    NameMatcherIs(v);
    assert "{__name__=\"" + v + "\"" + "}" == "{__name__=\"" + v + "\"}";
  }

  lemma DottedAlone(s: string, end: nat, name: string)
    requires end < |s| && s[end] == ')' && SkipSpace(s, end) == end
    ensures Dotted(s, end, name) == (NamePrefix(name) + "}", end)
  {
    hide SkipSpace, NamePrefix, Matchers;
  }
}
