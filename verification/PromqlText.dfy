/** Quoted literals in PromQL text: making lenient escapes standard. */
module PromqlText {
  import opened Common

  predicate Quote(c: char) { c == '"' || c == '\'' || c == '`' }

  predicate StandardEscape(c: char) {
    c in "abfnrtv\\\"'xuU" || '0' <= c <= '7'
  }

  /** What a backslash and the character after it become. */
  function Escaped(e: char): (w: string)
    ensures 1 <= |w| <= 3
  {
    if e == '/' then ['/'] else if StandardEscape(e) then ['\\', e] else ['\\', '\\', e]
  }

  /** `copy_quoted` after the opening quote `q`: what is written, and how much of the
      text is consumed, up to the closing quote or the end. */
  function CopyBody(q: char, s: string): (r: (string, nat))
    ensures r.1 <= |s| && (s != [] ==> r.1 > 0)
    decreases |s|
  {
    if s == [] then ([], 0)
    else if q != '`' && s[0] == '\\' then
      if |s| == 1 then (['\\'], 1)
      else var (w, n) := CopyBody(q, s[2..]); (Escaped(s[1]) + w, n + 2)
    else if s[0] == q then ([q], 1)
    else var (w, n) := CopyBody(q, s[1..]); ([s[0]] + w, n + 1)
  }

  /** The literal is closed before the text ends. */
  predicate Closed(q: char, s: string)
    decreases |s|
  {
    if s == [] then false
    else if q != '`' && s[0] == '\\' then |s| > 1 && Closed(q, s[2..])
    else s[0] == q || Closed(q, s[1..])
  }

  /** The method form, with its cursor. */
  method CopyQuoted(input: string, cursor: nat, out: string) returns (next: nat, r: string)
    requires cursor <= |input|
    ensures cursor == |input| ==> next == cursor && r == out
    ensures cursor < |input| ==>
              && next == cursor + 1 + CopyBody(input[cursor], input[cursor + 1..]).1
              && r == out + [input[cursor]] + CopyBody(input[cursor], input[cursor + 1..]).0
  {
    hide CopyBody, Escaped;
    if cursor == |input| { return cursor, out; }
    var quote := input[cursor];
    next, r := cursor + 1, out + [quote];
    ghost var body := CopyBody(quote, input[cursor + 1..]);
    while next < |input|
      invariant cursor < next <= |input|
      invariant r + CopyBody(quote, input[next..]).0 == out + [quote] + body.0
      invariant next + CopyBody(quote, input[next..]).1 == cursor + 1 + body.1
      decreases |input| - next
    {
      BodyStep(quote, input, next, r);
      var ch := input[next];
      if quote != '`' && ch == '\\' {
        if next + 1 < |input| {
          r := r + Escaped(input[next + 1]);
          next := next + 2;
        } else {
          r := r + [ch];
          next := next + 1;
        }
        continue;
      }
      r := r + [ch];
      next := next + 1;
      if ch == quote { return; }
    }
    NoBody(quote);
    assert input[|input|..] == [] && r + [] == r;
  }

  lemma NoBody(q: char)
    ensures CopyBody(q, []) == ([], 0)
  {
  }

  /** One turn of the copy, seen from the text before it. */
  lemma BodyStep(q: char, input: string, at: nat, r: string)
    requires at < |input|
    ensures var (w, n) := CopyBody(q, input[at..]);
            if q != '`' && input[at] == '\\' then
              if at + 1 < |input| then
                n == 2 + CopyBody(q, input[at + 2..]).1 && r + w == r + Escaped(input[at + 1]) + CopyBody(q, input[at + 2..]).0
              else
                n == 1 && r + w == r + ['\\'] && input[at + 1..] == [] && CopyBody(q, input[at + 1..]) == ([], 0)
            else if input[at] == q then n == 1 && r + w == r + [q]
            else n == 1 + CopyBody(q, input[at + 1..]).1 && r + w == r + [input[at]] + CopyBody(q, input[at + 1..]).0
  {
    hide Escaped;
    assert input[at..][1..] == input[at + 1..];
    if at + 1 < |input| { assert input[at..][2..] == input[at + 2..]; }
  }

  /** One turn of the copy and of the search for the closing quote. */
  lemma BodyTurn(q: char, s: string)
    ensures s == [] ==> CopyBody(q, s) == ([], 0) && !Closed(q, s)
    ensures s != [] && q != '`' && s[0] == '\\' ==>
              if |s| == 1 then CopyBody(q, s) == (s, 1) && !Closed(q, s)
              else CopyBody(q, s) == (Escaped(s[1]) + CopyBody(q, s[2..]).0, CopyBody(q, s[2..]).1 + 2) && Closed(q, s) == Closed(q, s[2..])
    ensures s != [] && !(q != '`' && s[0] == '\\') ==>
              if s[0] == q then CopyBody(q, s) == ([q], 1) && Closed(q, s)
              else CopyBody(q, s) == ([s[0]] + CopyBody(q, s[1..]).0, CopyBody(q, s[1..]).1 + 1) && Closed(q, s) == Closed(q, s[1..])
  {
    hide Escaped;
    if |s| == 1 { assert s == [s[0]]; }
  }

  lemma BodyPlain(q: char, c: char, s: string)
    requires c != q && (q == '`' || c != '\\')
    ensures CopyBody(q, [c] + s) == ([c] + CopyBody(q, s).0, CopyBody(q, s).1 + 1)
  {
    assert ([c] + s)[1..] == s;
  }

  lemma BodyEscape(q: char, e: char, s: string)
    requires q != '`'
    ensures CopyBody(q, ['\\', e] + s) == (Escaped(e) + CopyBody(q, s).0, CopyBody(q, s).1 + 2)
  {
    hide Escaped;
    assert (['\\', e] + s)[2..] == s;
  }

  /** An unterminated literal takes the whole text. */
  lemma {:induction false} OpenTakesAll(q: char, s: string)
    requires !Closed(q, s)
    ensures CopyBody(q, s).1 == |s|
    decreases |s|
  {
    if s != [] && !(q != '`' && s[0] == '\\') {
      OpenTakesAll(q, s[1..]);
    } else if |s| > 1 {
      OpenTakesAll(q, s[2..]);
    }
  }

  /** The written text of a literal is copied as it is on a second pass, which consumes
      exactly it. Nothing follows an unterminated literal. */
  lemma {:induction false} CopyAgain(q: char, s: string, t: string)
    requires Quote(q) && (Closed(q, s) || t == [])
    ensures CopyBody(q, CopyBody(q, s).0 + t) == (CopyBody(q, s).0, |CopyBody(q, s).0|)
    decreases |s|
  {
    hide CopyBody, Closed, Escaped;
    BodyTurn(q, s);
    var w := CopyBody(q, s).0;
    if s == [] || (|s| == 1 && q != '`' && s[0] == '\\') {
      assert w + t == w;
      BodyTurn(q, w);
    } else if q != '`' && s[0] == '\\' {
      CopyAgain(q, s[2..], t);
      EscapedAgain(q, s[1], CopyBody(q, s[2..]).0, t);
    } else if s[0] == q {
      BodyTurn(q, w + t);
    } else {
      var rest := CopyBody(q, s[1..]).0;
      CopyAgain(q, s[1..], t);
      BodyPlain(q, s[0], rest + t);
      assert w + t == [s[0]] + (rest + t);
    }
  }

  lemma EscapedAgain(q: char, e: char, rest: string, t: string)
    requires Quote(q) && q != '`' && CopyBody(q, rest + t) == (rest, |rest|)
    ensures var w := Escaped(e) + rest; CopyBody(q, w + t) == (w, |w|)
  {
    hide CopyBody;
    var more := rest + t;
    if e == '/' {
      BodyPlain(q, '/', more);
      assert ['/'] + rest + t == ['/'] + more;
    } else if StandardEscape(e) {
      BodyEscape(q, e, more);
      assert ['\\', e] + rest + t == ['\\', e] + more;
    } else {
      BodyPlain(q, e, more);
      BodyEscape(q, '\\', [e] + more);
      assert ['\\', '\\', e] + rest + t == ['\\', '\\'] + ([e] + more);
      assert ['\\', '\\'] + ([e] + rest) == ['\\', '\\', e] + rest;
    }
  }

  // ------------------------------------------------------------------ meaning

  /** The characters a literal spells: itself, or a standard escape. */
  datatype Unit = Chr(c: char) | Esc(e: char)

  /** What a literal spells, and whether it is terminated. */
  datatype Reading = Reading(units: seq<Unit>, closed: bool)

  function Before(us: seq<Unit>, r: Reading): Reading { Reading(us + r.units, r.closed) }

  /** What an escape spells leniently: an escaped slash is a slash, and the backslash of
      an unknown escape is a literal backslash. */
  function EscapeMeans(e: char): seq<Unit> {
    if e == '/' then [Chr('/')] else if StandardEscape(e) then [Esc(e)] else [Esc('\\'), Chr(e)]
  }

  /** Lenient reading of a literal after its opening quote; a backslash at the end of the
      text stands for itself. */
  function Lenient(q: char, s: string): Reading
    decreases |s|
  {
    if s == [] then Reading([], false)
    else if q != '`' && s[0] == '\\' then
      if |s| == 1 then Reading([Chr('\\')], false) else Before(EscapeMeans(s[1]), Lenient(q, s[2..]))
    else if s[0] == q then Reading([], true)
    else Before([Chr(s[0])], Lenient(q, s[1..]))
  }

  /** Strict reading: only standard escapes are allowed. */
  function Strict(q: char, s: string): Option<Reading>
    decreases |s|
  {
    if s == [] then Some(Reading([], false))
    else if q != '`' && s[0] == '\\' then
      if |s| == 1 then Some(Reading([Chr('\\')], false))
      else if !StandardEscape(s[1]) then None
      else Prefixed([Esc(s[1])], Strict(q, s[2..]))
    else if s[0] == q then Some(Reading([], true))
    else Prefixed([Chr(s[0])], Strict(q, s[1..]))
  }

  function Prefixed(us: seq<Unit>, r: Option<Reading>): Option<Reading> {
    match r { case None => None case Some(x) => Some(Before(us, x)) }
  }

  /** What is written is strictly valid and means what was read leniently. */
  lemma {:induction false} MeaningKept(q: char, s: string, t: string)
    requires Quote(q) && (Closed(q, s) || t == [])
    ensures Strict(q, CopyBody(q, s).0 + t) == Some(Lenient(q, s))
    decreases |s|
  {
    hide EscapeMeans, Escaped;
    var w := CopyBody(q, s).0;
    if s == [] || (|s| == 1 && q != '`' && s[0] == '\\') {
      assert w + t == w;
    } else if q != '`' && s[0] == '\\' {
      MeaningKept(q, s[2..], t);
      var rest := CopyBody(q, s[2..]).0;
      EscapedMeaning(q, s[1], rest + t, Lenient(q, s[2..]));
      assert w + t == Escaped(s[1]) + (rest + t);
    } else if s[0] == q {
      assert (w + t)[0] == q;
    } else {
      MeaningKept(q, s[1..], t);
      assert (w + t)[1..] == CopyBody(q, s[1..]).0 + t;
    }
  }

  lemma EscapedMeaning(q: char, e: char, rest: string, r: Reading)
    requires Quote(q) && q != '`' && Strict(q, rest) == Some(r)
    ensures Strict(q, Escaped(e) + rest) == Some(Before(EscapeMeans(e), r))
  {
    var w := Escaped(e) + rest;
    if e == '/' {
      assert w[1..] == rest;
    } else if StandardEscape(e) {
      assert w[2..] == rest;
    } else {
      assert w[2..] == [e] + rest && w[2..][1..] == rest;
      assert Strict(q, w[2..]) == Some(Before([Chr(e)], r));
      assert [Esc('\\')] + ([Chr(e)] + r.units) == [Esc('\\'), Chr(e)] + r.units;
    }
  }

  /** Where the strict reading exists, the lenient one agrees with it. */
  lemma {:induction false} StrictIsLenient(q: char, s: string)
    requires Strict(q, s).Some?
    ensures Strict(q, s) == Some(Lenient(q, s))
    decreases |s|
  {
    if s != [] && q != '`' && s[0] == '\\' {
      if |s| > 1 { StrictIsLenient(q, s[2..]); }
    } else if s != [] && s[0] != q {
      StrictIsLenient(q, s[1..]);
    }
  }

  // ----------------------------------------------------------------- identity

  /** The written text departs from the input at some position. */
  predicate Differs(w: string, s: string) {
    exists j :: 0 <= j < |w| && j < |s| && w[j] != s[j]
  }

  lemma DiffersMore(w: string, v: string, s: string)
    requires Differs(w, s)
    ensures Differs(w + v, s)
  {
    var j :| 0 <= j < |w| && j < |s| && w[j] != s[j];
    assert (w + v)[j] == w[j];
  }

  lemma DiffersLater(p: string, w: string, s: string)
    requires p <= s && Differs(w, s[|p|..])
    ensures Differs(p + w, s)
  {
    var j :| 0 <= j < |w| && j < |s[|p|..]| && w[j] != s[|p|..][j];
    assert (p + w)[|p| + j] == w[j] && s[|p| + j] == s[|p|..][j];
  }

  lemma DiffersIsDifferent(w: string, s: string)
    requires Differs(w, s)
    ensures w != s && !(w <= s)
  {
  }

  /** Every escape of the literal is standard. */
  predicate QuietBody(q: char, s: string)
    decreases |s|
  {
    if s == [] then true
    else if q != '`' && s[0] == '\\' then |s| == 1 || (StandardEscape(s[1]) && QuietBody(q, s[2..]))
    else s[0] == q || QuietBody(q, s[1..])
  }

  /** A literal is copied unchanged if and only if all its escapes are standard. */
  lemma {:induction false} BodyKept(q: char, s: string)
    requires Quote(q)
    ensures if QuietBody(q, s) then CopyBody(q, s).0 == s[..CopyBody(q, s).1] else Differs(CopyBody(q, s).0, s)
    decreases |s|
  {
    if s != [] && q != '`' && s[0] == '\\' {
      if |s| > 1 {
        BodyKept(q, s[2..]);
        EscapeKept(s, CopyBody(q, s[2..]).0, CopyBody(q, s[2..]).1, QuietBody(q, s[2..]));
      }
    } else if s != [] && s[0] != q {
      BodyKept(q, s[1..]);
      var (w, n) := CopyBody(q, s[1..]);
      if QuietBody(q, s[1..]) {
        assert s[..n + 1] == [s[0]] + s[1..][..n];
      } else {
        DiffersLater([s[0]], w, s);
      }
    }
  }

  lemma EscapeKept(s: string, w: string, n: nat, quiet: bool)
    requires |s| > 1 && s[0] == '\\' && n <= |s| - 2
    requires if quiet then w == s[2..][..n] else Differs(w, s[2..])
    ensures if StandardEscape(s[1]) && quiet then Escaped(s[1]) + w == s[..n + 2] else Differs(Escaped(s[1]) + w, s)
  {
    var e := s[1];
    var out := Escaped(e) + w;
    if e == '/' {
      assert out[0] != s[0];
    } else if !StandardEscape(e) {
      assert out[1] == '\\' && s[1] != '\\';
    } else if quiet {
      assert s[..n + 2] == [s[0], s[1]] + s[2..][..n];
    } else {
      DiffersLater(['\\', e], w, s);
    }
  }

  /** A literal that one pass has written is left alone by the next. */
  lemma WrittenIsQuiet(q: char, s: string, t: string)
    requires Quote(q) && (Closed(q, s) || t == [])
    ensures QuietBody(q, CopyBody(q, s).0 + t)
  {
    hide CopyBody, QuietBody;
    var w := CopyBody(q, s).0;
    CopyAgain(q, s, t);
    BodyKept(q, w + t);
    assert w <= w + t;
    if !QuietBody(q, w + t) { DiffersIsDifferent(w, w + t); }
  }
}
