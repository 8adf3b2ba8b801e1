/** The two textual passes before a PromQL query is parsed: function aliases, and
    OTLP-style dotted identifiers. */
module PromqlRewrite {
  import opened PromqlText

  predicate Alphabetic(c: char) { 'a' <= c <= 'z' || 'A' <= c <= 'Z' }
  predicate Alphanumeric(c: char) { Alphabetic(c) || '0' <= c <= '9' }
  predicate LabelFirst(c: char) { Alphabetic(c) || c == '_' }
  predicate LabelRest(c: char) { Alphanumeric(c) || c == '_' }
  predicate MetricFirst(c: char) { LabelFirst(c) || c == ':' }
  predicate MetricRest(c: char) { LabelRest(c) || c == ':' }

  /** The characters with the Unicode property White_Space. */
  predicate Whitespace(c: char) {
    || '\U{0009}' <= c <= '\U{000D}' || c == ' ' || c == '\U{0085}' || c == '\U{00A0}' || c == '\U{1680}'
    || '\U{2000}' <= c <= '\U{200A}' || c == '\U{2028}' || c == '\U{2029}' || c == '\U{202F}' || c == '\U{205F}' || c == '\U{3000}'
  }

  function SkipSpace(s: string, c: nat): (r: nat)
    requires c <= |s|
    ensures c <= r <= |s|
    decreases |s| - c
  {
    if c < |s| && Whitespace(s[c]) then SkipSpace(s, c + 1) else c
  }

  /** The end of a token whose further characters may be dots, and colons in a metric
      name. */
  function SpanEnd(s: string, c: nat, metric: bool): (r: nat)
    requires c <= |s|
    ensures c <= r <= |s|
    decreases |s| - c
  {
    if c < |s| && (LabelRest(s[c]) || s[c] == '.' || (metric && s[c] == ':')) then SpanEnd(s, c + 1, metric) else c
  }

  predicate CharAt(s: string, k: nat, c: char) { k < |s| && s[k] == c }

  // ------------------------------------------------------------------ aliases

  function HoltWinters(): (w: string)
    ensures |w| == 12 && w[0] == 'h'
  { "holt_winters" }

  function Smoothing(): (w: string)
    ensures |w| == 28 && w[0] == 'd'
  { "double_exponential_smoothing" }

  /** A call of the old function name. */
  predicate AliasAt(s: string, c: nat) {
    && c + 12 <= |s| && s[c..c + 12] == HoltWinters()
    && (c == 0 || !MetricRest(s[c - 1]))
    && CharAt(s, SkipSpace(s, c + 12), '(')
  }

  /** What one turn of the alias pass writes, and where it goes on. */
  function AliasPiece(s: string, c: nat): (r: (string, nat))
    requires c < |s|
    ensures c < r.1 <= |s|
  {
    if Quote(s[c]) then var (w, n) := CopyBody(s[c], s[c + 1..]); ([s[c]] + w, c + 1 + n)
    else if AliasAt(s, c) then (Smoothing(), c + 12)
    else ([s[c]], c + 1)
  }

  /** What the alias pass writes from position `c` on. */
  function Aliased(s: string, c: nat): string
    requires c <= |s|
    decreases |s| - c
  {
    if c == |s| then "" else AliasPiece(s, c).0 + Aliased(s, AliasPiece(s, c).1)
  }

  method RewriteAliases(s: string) returns (out: string)
    ensures out == Aliased(s, 0)
  {
    hide AliasPiece;
    out := "";
    var cursor := 0;
    while cursor < |s|
      invariant cursor <= |s| && out + Aliased(s, cursor) == Aliased(s, 0)
      decreases |s| - cursor
    {
      cursor, out := RewriteAliasPiece(s, cursor, out);
    }
  }

  method RewriteAliasPiece(s: string, from: nat, before: string) returns (cursor: nat, out: string)
    requires from < |s|
    ensures cursor == AliasPiece(s, from).1 && out == before + AliasPiece(s, from).0
  {
    hide AliasAt, CopyBody, Smoothing;
    if Quote(s[from]) {
      cursor, out := CopyQuoted(s, from, before);
    } else if AliasAt(s, from) {
      cursor, out := from + 12, before + Smoothing();
    } else {
      cursor, out := from + 1, before + [s[from]];
    }
  }

  lemma AliasFits(s: string, c: nat)
    requires AliasAt(s, c)
    ensures c + 12 <= |s| && s[c] == 'h'
  {
    assert s[c..c + 12][0] == HoltWinters()[0];
  }

  /** No old name is called and every escape in a literal is standard. */
  predicate AliasQuiet(s: string, c: nat)
    requires c <= |s|
    decreases |s| - c
  {
    c == |s| || (AliasPieceQuiet(s, c) && AliasQuiet(s, AliasPiece(s, c).1))
  }

  predicate AliasPieceQuiet(s: string, c: nat)
    requires c < |s|
  {
    if Quote(s[c]) then QuietBody(s[c], s[c + 1..]) else !AliasAt(s, c)
  }

  /** A piece `w` written for `s[c..n]`, then the rest. */
  lemma Piece(s: string, c: nat, w: string, n: nat, rest: string, quiet: bool, restQuiet: bool)
    requires c <= n <= |s|
    requires if quiet then w == s[c..n] else Differs(w, s[c..])
    requires if restQuiet then rest == s[n..] else Differs(rest, s[n..])
    ensures if quiet && restQuiet then w + rest == s[c..] else Differs(w + rest, s[c..])
  {
    if !quiet {
      DiffersMore(w, rest, s[c..]);
    } else if !restQuiet {
      assert s[c..][n - c..] == s[n..] && s[c..][..n - c] == w;
      DiffersLater(w, rest, s[c..]);
    } else {
      assert s[c..n] + s[n..] == s[c..];
    }
  }

  /** A quoted literal as a piece. */
  lemma LiteralPiece(s: string, c: nat)
    requires c < |s| && Quote(s[c])
    ensures var (w, n) := CopyBody(s[c], s[c + 1..]);
            if QuietBody(s[c], s[c + 1..]) then [s[c]] + w == s[c..c + 1 + n] else Differs([s[c]] + w, s[c..])
  {
    var q, t := s[c], s[c + 1..];
    var (w, n) := CopyBody(q, t);
    BodyKept(q, t);
    if QuietBody(q, t) {
      assert s[c..c + 1 + n] == [q] + t[..n];
    } else {
      assert s[c..][1..] == t && s[c..][..1] == [q];
      DiffersLater([q], w, s[c..]);
    }
  }

  lemma AliasPieceKept(s: string, c: nat)
    requires c < |s|
    ensures var (w, n) := AliasPiece(s, c); if AliasPieceQuiet(s, c) then w == s[c..n] else Differs(w, s[c..])
  {
    hide AliasAt, CopyBody, QuietBody, Differs, Smoothing;
    if Quote(s[c]) {
      LiteralPiece(s, c);
    } else if AliasAt(s, c) {
      AliasFits(s, c);
      Starts(s, c, Smoothing());
    } else {
      assert s[c..c + 1] == [s[c]];
    }
  }

  /** The alias pass changes a text if and only if something in it calls for it. */
  lemma {:induction false} AliasKept(s: string, c: nat)
    requires c <= |s|
    ensures if AliasQuiet(s, c) then Aliased(s, c) == s[c..] else Differs(Aliased(s, c), s[c..])
    decreases |s| - c
  {
    hide AliasPiece, AliasPieceQuiet, Differs;
    if c < |s| {
      var (w, n) := AliasPiece(s, c);
      AliasPieceKept(s, c);
      AliasKept(s, n);
      Piece(s, c, w, n, Aliased(s, n), AliasPieceQuiet(s, c), AliasQuiet(s, n));
    }
  }

  lemma Starts(s: string, c: nat, w: string)
    requires c < |s| && w != [] && w[0] != s[c]
    ensures Differs(w, s[c..])
  {
    assert w[0] != s[c..][0];
  }

  // --------------------------------------------------------- OTLP identifiers

  predicate OperatorAt(s: string, k: nat) {
    CharAt(s, k, '=') || (CharAt(s, k, '!') && (CharAt(s, k + 1, '=') || CharAt(s, k + 1, '~')))
  }

  function QuotedChars(v: string): string {
    if v == [] then []
    else (match v[0]
          case '\\' => ['\\', '\\']
          case '"' => ['\\', '"']
          case '\n' => ['\\', 'n']
          case '\r' => ['\\', 'r']
          case '\t' => ['\\', 't']
          case c => [c]) + QuotedChars(v[1..])
  }

  /** `push_quoted`. */
  function Quoted(v: string): string { ['"'] + QuotedChars(v) + ['"'] }

  /** A label name with every character that is not allowed replaced. */
  function Allowed(v: string): (r: string)
    ensures |r| == |v| && forall i :: 0 <= i < |r| ==> r[i] == if LabelRest(v[i]) then v[i] else '_'
  {
    seq(|v|, i requires 0 <= i < |v| => if LabelRest(v[i]) then v[i] else '_')
  }

  /** `normalize_label_name`; `hex` gives the fingerprint of the original name. */
  function NormalizeLabel(v: string, hex: string -> string): string {
    var clean := Allowed(v);
    var first := if clean == [] then "_" else if !LabelFirst(clean[0]) then "_" + clean else clean;
    var plain := if first == "__name__" || "__" <= first then "otel_" + first else first;
    if plain != v then plain + "_x" + hex(v) else plain
  }

  /** One turn inside braces, before the closing one. */
  function MatcherPiece(s: string, c: nat): (r: (string, nat))
    requires c < |s| && s[c] != '}'
    ensures c < r.1 <= |s|
  {
    if Quote(s[c]) then var (w, n) := CopyBody(s[c], s[c + 1..]); ([s[c]] + w, c + 1 + n)
    else if LabelFirst(s[c]) then
      var end := SpanEnd(s, c + 1, false);
      (if MatcherEvent(s, c, end) then Quoted(s[c..end]) else s[c..end], end)
    else ([s[c]], c + 1)
  }

  /** Inside braces, up to the closing one: what is written and where it stops. */
  function Matchers(s: string, c: nat): (r: (string, nat))
    requires c <= |s|
    ensures c <= r.1 <= |s|
    decreases |s| - c
  {
    if c == |s| then ("", c)
    else if s[c] == '}' then ("}", c + 1)
    else
      var (w, n) := MatcherPiece(s, c);
      var (v, e) := Matchers(s, n);
      (w + v, e)
  }

  /** A dotted label name before a matcher operator. */
  predicate MatcherEvent(s: string, c: nat, end: nat)
    requires c <= end <= |s|
  {
    '.' in s[c..end] && OperatorAt(s, SkipSpace(s, end))
  }

  predicate MatcherPieceQuiet(s: string, c: nat)
    requires c < |s|
  {
    if Quote(s[c]) then QuietBody(s[c], s[c + 1..])
    else LabelFirst(s[c]) ==> !MatcherEvent(s, c, SpanEnd(s, c + 1, false))
  }

  predicate MatchersQuiet(s: string, c: nat)
    requires c <= |s|
    decreases |s| - c
  {
    c == |s| || s[c] == '}' || (MatcherPieceQuiet(s, c) && MatchersQuiet(s, MatcherPiece(s, c).1))
  }

  method RewriteMatchers(s: string, from: nat, before: string) returns (cursor: nat, out: string)
    requires from <= |s|
    ensures cursor == Matchers(s, from).1 && out == before + Matchers(s, from).0
  {
    hide MatcherPiece;
    cursor, out := from, before;
    while cursor < |s|
      invariant from <= cursor <= |s| && Matchers(s, cursor).1 == Matchers(s, from).1
      invariant out + Matchers(s, cursor).0 == before + Matchers(s, from).0
      decreases |s| - cursor
    {
      if s[cursor] == '}' {
        out := out + ['}'];
        return cursor + 1, out;
      }
      cursor, out := RewriteMatcherPiece(s, cursor, out);
    }
  }

  method RewriteMatcherPiece(s: string, from: nat, before: string) returns (cursor: nat, out: string)
    requires from < |s| && s[from] != '}'
    ensures cursor == MatcherPiece(s, from).1 && out == before + MatcherPiece(s, from).0
  {
    hide CopyBody, MatcherEvent, Quoted;
    if Quote(s[from]) {
      cursor, out := CopyQuoted(s, from, before);
    } else if LabelFirst(s[from]) {
      cursor := SpanEnd(s, from + 1, false);
      out := before + if MatcherEvent(s, from, cursor) then Quoted(s[from..cursor]) else s[from..cursor];
    } else {
      cursor, out := from + 1, before + [s[from]];
    }
  }

  /** A piece of a part that stops at `e`. */
  lemma PartPiece(s: string, c: nat, w: string, n: nat, v: string, e: nat, quiet: bool, restQuiet: bool)
    requires c <= n <= e <= |s|
    requires if quiet then w == s[c..n] else Differs(w, s[c..])
    requires if restQuiet then v == s[n..e] else Differs(v, s[n..])
    ensures if quiet && restQuiet then w + v == s[c..e] else Differs(w + v, s[c..])
  {
    if !quiet {
      DiffersMore(w, v, s[c..]);
    } else if !restQuiet {
      assert s[c..][n - c..] == s[n..] && s[c..][..n - c] == w;
      DiffersLater(w, v, s[c..]);
    } else {
      assert s[c..n] + s[n..e] == s[c..e];
    }
  }

  lemma MatcherPieceKept(s: string, c: nat)
    requires c < |s| && s[c] != '}'
    ensures var (w, n) := MatcherPiece(s, c); if MatcherPieceQuiet(s, c) then w == s[c..n] else Differs(w, s[c..])
  {
    hide CopyBody, QuietBody, Differs, MatcherEvent, Quoted;
    if Quote(s[c]) {
      LiteralPiece(s, c);
    } else if LabelFirst(s[c]) {
      var end := SpanEnd(s, c + 1, false);
      if MatcherEvent(s, c, end) {
        QuotedStarts(s[c..end]);
        Starts(s, c, Quoted(s[c..end]));
      }
    } else {
      assert s[c..c + 1] == [s[c]];
    }
  }

  lemma {:induction false} MatchersKept(s: string, c: nat)
    requires c <= |s|
    ensures if MatchersQuiet(s, c) then Matchers(s, c).0 == s[c..Matchers(s, c).1] else Differs(Matchers(s, c).0, s[c..])
    decreases |s| - c
  {
    hide MatcherPiece, MatcherPieceQuiet, Differs;
    if c < |s| && s[c] != '}' {
      var (w, n) := MatcherPiece(s, c);
      MatcherPieceKept(s, c);
      MatchersKept(s, n);
      PartPiece(s, c, w, n, Matchers(s, n).0, Matchers(s, n).1, MatcherPieceQuiet(s, c), MatchersQuiet(s, n));
    }
  }

  lemma QuotedStarts(v: string)
    ensures Quoted(v) != [] && Quoted(v)[0] == '"'
  {
  }

  // --------------------------------------------------------- grouping labels

  /** Behind the opening parenthesis of a grouping clause. */
  function GroupOpen(s: string, c: nat): (r: nat)
    requires c <= |s|
    ensures c <= r <= |s|
    decreases |s| - c
  {
    if c == |s| then c else if s[c] == '(' then c + 1 else GroupOpen(s, c + 1)
  }

  /** The labels of a grouping clause, up to the closing parenthesis. */
  function GroupLabels(s: string, c: nat, hex: string -> string): (r: (string, nat))
    requires c <= |s|
    ensures c <= r.1 <= |s|
    decreases |s| - c
  {
    if c == |s| then ("", c)
    else if s[c] == ')' then (")", c + 1)
    else if LabelFirst(s[c]) then
      var end := SpanEnd(s, c + 1, false);
      var (v, e) := GroupLabels(s, end, hex);
      ((if '.' in s[c..end] then NormalizeLabel(s[c..end], hex) else s[c..end]) + v, e)
    else
      var (v, e) := GroupLabels(s, c + 1, hex); ([s[c]] + v, e)
  }

  /** Where a grouping clause ends, whatever the labels become. */
  function GroupEnd(s: string, c: nat): (e: nat)
    requires c <= |s|
    ensures c <= e <= |s|
    decreases |s| - c
  {
    if c == |s| then c
    else if s[c] == ')' then c + 1
    else if LabelFirst(s[c]) then GroupEnd(s, SpanEnd(s, c + 1, false))
    else GroupEnd(s, c + 1)
  }

  lemma {:induction false} GroupEnds(s: string, c: nat, hex: string -> string)
    requires c <= |s|
    ensures GroupLabels(s, c, hex).1 == GroupEnd(s, c)
    decreases |s| - c
  {
    hide NormalizeLabel;
    if c < |s| && s[c] != ')' { GroupEnds(s, if LabelFirst(s[c]) then SpanEnd(s, c + 1, false) else c + 1, hex); }
  }

  predicate GroupQuiet(s: string, c: nat)
    requires c <= |s|
    decreases |s| - c
  {
    if c == |s| || s[c] == ')' then true
    else if LabelFirst(s[c]) then
      var end := SpanEnd(s, c + 1, false);
      '.' !in s[c..end] && GroupQuiet(s, end)
    else GroupQuiet(s, c + 1)
  }

  method RewriteGrouping(s: string, from: nat, before: string, hex: string -> string) returns (cursor: nat, out: string)
    requires from <= |s|
    ensures var open := GroupOpen(s, from);
            cursor == GroupLabels(s, open, hex).1 && out == before + s[from..open] + GroupLabels(s, open, hex).0
  {
    hide GroupLabels;
    cursor, out := CopyToOpen(s, from, before);
    cursor, out := RewriteGroupLabels(s, cursor, out, hex);
  }

  method CopyToOpen(s: string, from: nat, before: string) returns (cursor: nat, out: string)
    requires from <= |s|
    ensures cursor == GroupOpen(s, from) && out == before + s[from..cursor]
  {
    cursor, out := from, before;
    while cursor < |s|
      invariant from <= cursor <= |s| && out == before + s[from..cursor] && GroupOpen(s, cursor) == GroupOpen(s, from)
    {
      var ch := s[cursor];
      out := out + [ch];
      cursor := cursor + 1;
      if ch == '(' { break; }
    }
  }

  method RewriteGroupLabels(s: string, from: nat, before: string, hex: string -> string) returns (cursor: nat, out: string)
    requires from <= |s|
    ensures cursor == GroupLabels(s, from, hex).1 && out == before + GroupLabels(s, from, hex).0
  {
    hide GroupLabels, NormalizeLabel;
    cursor, out := from, before;
    while cursor < |s|
      invariant from <= cursor <= |s| && GroupLabels(s, cursor, hex).1 == GroupLabels(s, from, hex).1
      invariant out + GroupLabels(s, cursor, hex).0 == before + GroupLabels(s, from, hex).0
      decreases |s| - cursor
    {
      GroupStep(s, cursor, hex, out);
      if s[cursor] == ')' {
        out := out + [')'];
        return cursor + 1, out;
      } else if LabelFirst(s[cursor]) {
        var end := SpanEnd(s, cursor + 1, false);
        out := out + if '.' in s[cursor..end] then NormalizeLabel(s[cursor..end], hex) else s[cursor..end];
        cursor := end;
      } else {
        out := out + [s[cursor]];
        cursor := cursor + 1;
      }
    }
    NoGroup(s, hex);
    assert out + "" == out;
  }

  lemma NoGroup(s: string, hex: string -> string)
    ensures GroupLabels(s, |s|, hex) == ("", |s|)
  {
  }

  lemma GroupStep(s: string, c: nat, hex: string -> string, out: string)
    requires c < |s|
    ensures var (v, e) := GroupLabels(s, c, hex);
            if s[c] == ')' then e == c + 1 && out + v == out + [')']
            else if LabelFirst(s[c]) then
              var end := SpanEnd(s, c + 1, false);
              && e == GroupLabels(s, end, hex).1
              && out + v == out + (if '.' in s[c..end] then NormalizeLabel(s[c..end], hex) else s[c..end]) + GroupLabels(s, end, hex).0
            else e == GroupLabels(s, c + 1, hex).1 && out + v == out + [s[c]] + GroupLabels(s, c + 1, hex).0
  {
    hide NormalizeLabel;
  }

  /** A normalized name has no dot and is no shorter than the original. */
  lemma NormalizedHasNoDot(v: string, hex: string -> string)
    requires v != [] && LabelFirst(v[0]) && '.' !in hex(v)
    ensures |NormalizeLabel(v, hex)| >= |v| && '.' !in NormalizeLabel(v, hex)
  {
    var clean := Allowed(v);
    assert '.' !in clean;
    assert '.' !in "otel_" && '.' !in "_x";
  }

  lemma NormalizedDiffers(v: string, hex: string -> string, s: string, c: nat, rest: string)
    requires c <= |s| && v != [] && LabelFirst(v[0]) && '.' !in hex(v) && '.' in v && v <= s[c..]
    ensures Differs(NormalizeLabel(v, hex) + rest, s[c..])
  {
    hide NormalizeLabel;
    NormalizedHasNoDot(v, hex);
    var n := NormalizeLabel(v, hex);
    var j :| 0 <= j < |v| && v[j] == '.';
    assert n[j] in n && s[c..][j] == v[j];
    assert (n + rest)[j] == n[j];
  }

  ghost predicate Undotted(hex: string -> string) { forall v :: '.' !in hex(v) }

  lemma {:induction false} GroupKept(s: string, c: nat, hex: string -> string)
    requires c <= |s| && Undotted(hex)
    ensures if GroupQuiet(s, c) then GroupLabels(s, c, hex).0 == s[c..GroupLabels(s, c, hex).1]
            else Differs(GroupLabels(s, c, hex).0, s[c..])
    decreases |s| - c
  {
    hide NormalizeLabel, Differs;
    if c < |s| && s[c] != ')' {
      if LabelFirst(s[c]) {
        var end := SpanEnd(s, c + 1, false);
        GroupKept(s, end, hex);
        if '.' in s[c..end] {
          assert s[c..end] <= s[c..];
          NormalizedDiffers(s[c..end], hex, s, c, GroupLabels(s, end, hex).0);
        } else {
          PartPiece(s, c, s[c..end], end, GroupLabels(s, end, hex).0, GroupLabels(s, end, hex).1, true, GroupQuiet(s, end));
        }
      } else {
        GroupKept(s, c + 1, hex);
        assert s[c..c + 1] == [s[c]];
        PartPiece(s, c, [s[c]], c + 1, GroupLabels(s, c + 1, hex).0, GroupLabels(s, c + 1, hex).1, true, GroupQuiet(s, c + 1));
      }
    }
  }

  // ----------------------------------------------------------- dotted metrics

  function NamePrefix(name: string): (w: string)
    ensures w != [] && w[0] == '{'
  {
    "{__name__=" + Quoted(name)
  }

  /** A dotted metric name that is not called as a function becomes a name matcher. */
  predicate MetricEvent(s: string, end: nat)
    requires end <= |s|
  {
    !CharAt(s, SkipSpace(s, end), '(')
  }

  function Dotted(s: string, end: nat, name: string): (r: (string, nat))
    requires end <= |s|
    ensures end <= r.1 <= |s|
  {
    var k := SkipSpace(s, end);
    if !MetricEvent(s, end) then (name, end)
    else if CharAt(s, k, '{') then
      var a := SkipSpace(s, k + 1);
      if CharAt(s, a, '}') then (NamePrefix(name) + "}", a + 1)
      else var (v, e) := Matchers(s, k + 1); (NamePrefix(name) + "," + v, e)
    else (NamePrefix(name) + "}", end)
  }

  method RewriteDotted(s: string, end: nat, name: string, before: string) returns (cursor: nat, out: string)
    requires end <= |s|
    ensures cursor == Dotted(s, end, name).1 && out == before + Dotted(s, end, name).0
  {
    hide Matchers, NamePrefix;
    var k := SkipSpace(s, end);
    if CharAt(s, k, '(') { return end, before + name; }
    out := before + NamePrefix(name);
    if CharAt(s, k, '{') {
      var a := SkipSpace(s, k + 1);
      if CharAt(s, a, '}') { return a + 1, out + "}"; }
      out := out + ",";
      cursor, out := RewriteMatchers(s, k + 1, out);
    } else {
      out := out + "}";
      cursor := end;
    }
  }

  // ----------------------------------------------------------- the whole pass

  predicate GroupingKeyword(token: string) {
    token == "by" || token == "without" || token == "on" || token == "ignoring" || token == "group_left" || token == "group_right"
  }

  /** A grouping keyword before an opening parenthesis. */
  predicate GroupingAt(s: string, c: nat, end: nat)
    requires c <= end <= |s|
  {
    GroupingKeyword(s[c..end]) && CharAt(s, SkipSpace(s, end), '(')
  }

  /** What one turn of the OTLP pass writes, and where it goes on. */
  function OtlpPiece(s: string, c: nat, hex: string -> string): (r: (string, nat))
    requires c < |s|
    ensures c < r.1 <= |s|
  {
    if Quote(s[c]) then var (w, n) := CopyBody(s[c], s[c + 1..]); ([s[c]] + w, c + 1 + n)
    else if s[c] == '{' then var (v, e) := Matchers(s, c + 1); (['{'] + v, e)
    else if MetricFirst(s[c]) then
      var end := SpanEnd(s, c + 1, true);
      if '.' in s[c..end] then Dotted(s, end, s[c..end])
      else if GroupingAt(s, c, end) then
        var open := GroupOpen(s, end);
        var (v, e) := GroupLabels(s, open, hex);
        (s[c..end] + s[end..open] + v, e)
      else (s[c..end], end)
    else ([s[c]], c + 1)
  }

  /** What the OTLP pass writes from position `c` on. */
  function Otlp(s: string, c: nat, hex: string -> string): string
    requires c <= |s|
    decreases |s| - c
  {
    if c == |s| then "" else OtlpPiece(s, c, hex).0 + Otlp(s, OtlpPiece(s, c, hex).1, hex)
  }

  method RewriteOtlp(s: string, hex: string -> string) returns (out: string)
    ensures out == Otlp(s, 0, hex)
  {
    hide OtlpPiece;
    out := "";
    var cursor := 0;
    while cursor < |s|
      invariant cursor <= |s| && out + Otlp(s, cursor, hex) == Otlp(s, 0, hex)
      decreases |s| - cursor
    {
      cursor, out := RewritePiece(s, cursor, out, hex);
    }
  }

  method RewritePiece(s: string, from: nat, before: string, hex: string -> string) returns (cursor: nat, out: string)
    requires from < |s|
    ensures cursor == OtlpPiece(s, from, hex).1 && out == before + OtlpPiece(s, from, hex).0
  {
    hide CopyBody, Matchers, Dotted, GroupLabels, GroupingAt;
    if Quote(s[from]) {
      cursor, out := CopyQuoted(s, from, before);
    } else if s[from] == '{' {
      cursor, out := RewriteMatchers(s, from + 1, before + ['{']);
    } else if MetricFirst(s[from]) {
      var end := SpanEnd(s, from + 1, true);
      var token := s[from..end];
      if '.' in token {
        cursor, out := RewriteDotted(s, end, token, before);
      } else if GroupingAt(s, from, end) {
        cursor, out := RewriteGrouping(s, end, before + token, hex);
      } else {
        cursor, out := end, before + token;
      }
    } else {
      cursor, out := from + 1, before + [s[from]];
    }
  }

  /** The turn has nothing to rewrite. */
  predicate PieceQuiet(s: string, c: nat)
    requires c < |s|
  {
    if Quote(s[c]) then QuietBody(s[c], s[c + 1..])
    else if s[c] == '{' then MatchersQuiet(s, c + 1)
    else if MetricFirst(s[c]) then
      var end := SpanEnd(s, c + 1, true);
      if '.' in s[c..end] then !MetricEvent(s, end)
      else GroupingAt(s, c, end) ==> GroupQuiet(s, GroupOpen(s, end))
    else true
  }

  /** Where a turn goes on. */
  function PieceEnd(s: string, c: nat): (e: nat)
    requires c < |s|
    ensures c < e <= |s|
  {
    if Quote(s[c]) then c + 1 + CopyBody(s[c], s[c + 1..]).1
    else if s[c] == '{' then Matchers(s, c + 1).1
    else if MetricFirst(s[c]) then
      var end := SpanEnd(s, c + 1, true);
      if '.' in s[c..end] then Dotted(s, end, s[c..end]).1
      else if GroupingAt(s, c, end) then GroupEnd(s, GroupOpen(s, end))
      else end
    else c + 1
  }

  /** No dotted name that the pass would rewrite, and only standard escapes, at any
      turn. */
  predicate OtlpQuiet(s: string, c: nat)
    requires c <= |s|
    decreases |s| - c
  {
    c == |s| || (PieceQuiet(s, c) && OtlpQuiet(s, PieceEnd(s, c)))
  }

  lemma PieceKept(s: string, c: nat, hex: string -> string)
    requires c < |s| && Undotted(hex)
    ensures OtlpPiece(s, c, hex).1 == PieceEnd(s, c)
    ensures if PieceQuiet(s, c) then OtlpPiece(s, c, hex).0 == s[c..PieceEnd(s, c)] else Differs(OtlpPiece(s, c, hex).0, s[c..])
  {
    hide CopyBody, Matchers, Dotted, GroupLabels, GroupingAt, QuietBody, MatchersQuiet, GroupQuiet, Differs, MetricEvent;
    if Quote(s[c]) {
      LiteralPiece(s, c);
    } else if s[c] == '{' {
      MatchersKept(s, c + 1);
      var (v, e) := Matchers(s, c + 1);
      assert s[c..c + 1] == ['{'];
      PartPiece(s, c, ['{'], c + 1, v, e, true, MatchersQuiet(s, c + 1));
    } else if MetricFirst(s[c]) {
      var end := SpanEnd(s, c + 1, true);
      if '.' in s[c..end] {
        DottedPiece(s, c, end);
      } else if GroupingAt(s, c, end) {
        GroupPiece(s, c, end, hex);
      }
    } else {
      assert s[c..c + 1] == [s[c]];
    }
  }

  lemma DottedPiece(s: string, c: nat, end: nat)
    requires c < end <= |s| && MetricFirst(s[c])
    ensures var (v, e) := Dotted(s, end, s[c..end]);
            if MetricEvent(s, end) then Differs(v, s[c..]) else v == s[c..end] && e == end
  {
    hide Matchers, NamePrefix, MetricEvent;
    if MetricEvent(s, end) { Starts(s, c, Dotted(s, end, s[c..end]).0); }
  }

  lemma GroupPiece(s: string, c: nat, end: nat, hex: string -> string)
    requires c < end <= |s| && Undotted(hex)
    ensures var open := GroupOpen(s, end);
            var (v, e) := GroupLabels(s, open, hex);
            e == GroupEnd(s, open) && if GroupQuiet(s, open) then s[c..end] + s[end..open] + v == s[c..e]
                                      else Differs(s[c..end] + s[end..open] + v, s[c..])
  {
    hide GroupLabels, GroupQuiet, Differs;
    var open := GroupOpen(s, end);
    var (v, e) := GroupLabels(s, open, hex);
    GroupEnds(s, open, hex);
    GroupKept(s, open, hex);
    assert s[c..end] + s[end..open] == s[c..open];
    PartPiece(s, c, s[c..open], open, v, e, true, GroupQuiet(s, open));
  }

  /** The OTLP pass changes a text if and only if something in it calls for it. */
  lemma {:induction false} OtlpKept(s: string, c: nat, hex: string -> string)
    requires c <= |s| && Undotted(hex)
    ensures if OtlpQuiet(s, c) then Otlp(s, c, hex) == s[c..] else Differs(Otlp(s, c, hex), s[c..])
    decreases |s| - c
  {
    hide OtlpPiece, PieceQuiet, PieceEnd, Differs;
    if c < |s| {
      var e := PieceEnd(s, c);
      PieceKept(s, c, hex);
      OtlpKept(s, e, hex);
      Piece(s, c, OtlpPiece(s, c, hex).0, e, Otlp(s, e, hex), PieceQuiet(s, c), OtlpQuiet(s, e));
    }
  }

  /** Exactly when each pass is the identity. */
  lemma IdentityIff(s: string, hex: string -> string)
    requires Undotted(hex)
    ensures Aliased(s, 0) == s <==> AliasQuiet(s, 0)
    ensures Otlp(s, 0, hex) == s <==> OtlpQuiet(s, 0)
  {
    hide AliasQuiet, OtlpQuiet, Aliased, Otlp;
    AliasKept(s, 0);
    OtlpKept(s, 0, hex);
    assert s[0..] == s;
    if !AliasQuiet(s, 0) { DiffersIsDifferent(Aliased(s, 0), s); }
    if !OtlpQuiet(s, 0) { DiffersIsDifferent(Otlp(s, 0, hex), s); }
  }

  // --------------------------------------------------------------- plain text

  predicate OnlyStandardEscapes(s: string) {
    forall i :: 0 <= i < |s| - 1 && s[i] == '\\' ==> StandardEscape(s[i + 1])
  }

  lemma {:induction false} PlainBody(q: char, s: string)
    requires OnlyStandardEscapes(s)
    ensures QuietBody(q, s)
    decreases |s|
  {
    if s != [] {
      if |s| > 1 { PlainBody(q, s[2..]); }
      PlainBody(q, s[1..]);
    }
  }

  lemma PlainTail(s: string, c: nat)
    requires c <= |s| && OnlyStandardEscapes(s)
    ensures OnlyStandardEscapes(s[c..])
  {
    var t := s[c..];
    forall i | 0 <= i < |t| - 1 && t[i] == '\\' ensures StandardEscape(t[i + 1]) { assert s[c + i] == t[i] && s[c + i + 1] == t[i + 1]; }
  }

  lemma {:induction false} PlainAlias(s: string, c: nat)
    requires c <= |s| && OnlyStandardEscapes(s) && forall k :: 0 <= k < |s| ==> !AliasAt(s, k)
    ensures AliasQuiet(s, c)
    decreases |s| - c
  {
    hide AliasPiece, QuietBody, AliasAt;
    if c < |s| {
      PlainTail(s, c + 1);
      PlainBody(s[c], s[c + 1..]);
      PlainAlias(s, AliasPiece(s, c).1);
    }
  }

  lemma {:induction false} PlainMatchers(s: string, c: nat)
    requires c <= |s| && OnlyStandardEscapes(s) && '.' !in s
    ensures MatchersQuiet(s, c)
    decreases |s| - c
  {
    hide MatcherPiece, QuietBody;
    if c < |s| && s[c] != '}' {
      PlainTail(s, c + 1);
      PlainBody(s[c], s[c + 1..]);
      PlainMatchers(s, MatcherPiece(s, c).1);
    }
  }

  lemma {:induction false} PlainGroup(s: string, c: nat)
    requires c <= |s| && '.' !in s
    ensures GroupQuiet(s, c)
    decreases |s| - c
  {
    if c < |s| && s[c] != ')' { PlainGroup(s, if LabelFirst(s[c]) then SpanEnd(s, c + 1, false) else c + 1); }
  }

  lemma {:induction false} PlainOtlp(s: string, c: nat)
    requires c <= |s| && OnlyStandardEscapes(s) && '.' !in s
    ensures OtlpQuiet(s, c)
    decreases |s| - c
  {
    hide CopyBody, QuietBody, MatchersQuiet, GroupQuiet, PieceEnd;
    if c < |s| {
      PlainTail(s, c + 1);
      PlainBody(s[c], s[c + 1..]);
      PlainMatchers(s, c + 1);
      if MetricFirst(s[c]) { PlainGroup(s, GroupOpen(s, SpanEnd(s, c + 1, true))); }
      PlainOtlp(s, PieceEnd(s, c));
    }
  }

  /** Text without dots, without a call of the old name and with only standard escapes
      passes through both passes unchanged. */
  lemma PlainTextKept(s: string, hex: string -> string)
    requires Undotted(hex) && OnlyStandardEscapes(s) && '.' !in s && forall k :: 0 <= k < |s| ==> !AliasAt(s, k)
    ensures Aliased(s, 0) == s && Otlp(s, 0, hex) == s
  {
    PlainAlias(s, 0);
    PlainOtlp(s, 0);
    IdentityIff(s, hex);
  }
}
