/** Label pairs, the order of label names, and canonical label sequences. */
module LabelOrder {
  import opened Common

  datatype Label = Label(key: string, value: string)

  /** Lexicographic order of Unicode scalar values, which is also the byte order
      of the UTF-8 encodings. */
  predicate Less(a: string, b: string) {
    b != [] && (a == [] || a[0] < b[0] || (a[0] == b[0] && Less(a[1..], b[1..])))
  }

  lemma {:induction false} LessTotal(a: string, b: string)
    ensures Less(a, b) || a == b || Less(b, a)
    ensures !(Less(a, b) && Less(b, a)) && !(a == b && Less(a, b))
  {
    if a != [] && b != [] && a[0] == b[0] {
      LessTotal(a[1..], b[1..]);
      assert a == [a[0]] + a[1..] && b == [b[0]] + b[1..];
    }
  }

  lemma {:induction false} LessTrans(a: string, b: string, c: string)
    requires Less(a, b) && Less(b, c)
    ensures Less(a, c)
  {
    if a != [] && a[0] == b[0] && b[0] == c[0] { LessTrans(a[1..], b[1..], c[1..]); }
  }

  /** One string comes before another if and only if it is a proper prefix of it or has the
      smaller scalar value at the first difference. */
  lemma {:induction false} LessIs(a: string, b: string)
    ensures Less(a, b) <==> exists i :: 0 <= i <= |a| && i < |b| && a[..i] == b[..i] && (i == |a| || a[i] < b[i])
  {
    if a != [] && b != [] {
      LessIs(a[1..], b[1..]);
      if a[0] == b[0] {
        if i :| 0 <= i <= |a[1..]| && i < |b[1..]| && a[1..][..i] == b[1..][..i] && (i == |a[1..]| || a[1..][i] < b[1..][i]) {
          assert a[..i + 1] == [a[0]] + a[1..][..i] && b[..i + 1] == [b[0]] + b[1..][..i];
        }
        if i :| 0 <= i <= |a| && i < |b| && a[..i] == b[..i] && (i == |a| || a[i] < b[i]) {
          assert i > 0;
          assert a[1..][..i - 1] == a[..i][1..] && b[1..][..i - 1] == b[..i][1..];
        }
      } else {
        FirstAgrees(a, b);
        if Less(a, b) { assert a[..0] == b[..0]; }
      }
    } else if b != [] {
      assert a[..0] == b[..0];
    }
  }

  lemma FirstAgrees(a: string, b: string)
    ensures forall i :: 0 < i <= |a| && i <= |b| && a[..i] == b[..i] ==> a[0] == b[0]
  {
    forall i | 0 < i <= |a| && i <= |b| && a[..i] == b[..i] ensures a[0] == b[0] { assert a[0] == a[..i][0] && b[0] == b[..i][0]; }
  }

  predicate StrictKeys(s: seq<Label>) {
    forall i, j :: 0 <= i < j < |s| ==> Less(s[i].key, s[j].key)
  }

  /** The value of the last pair with key `k`. */
  function LastOf(s: seq<Label>, k: string): Option<string> {
    if s == [] then None
    else if s[|s| - 1].key == k then Some(s[|s| - 1].value)
    else LastOf(s[..|s| - 1], k)
  }

  lemma {:induction false} LastOfConcat(s: seq<Label>, t: seq<Label>, k: string)
    ensures LastOf(s + t, k) == if LastOf(t, k).Some? then LastOf(t, k) else LastOf(s, k)
  {
    if t == [] {
      assert s + t == s;
    } else {
      LastOfConcat(s, t[..|t| - 1], k);
      assert (s + t)[..|s + t| - 1] == s + t[..|t| - 1];
    }
  }

  lemma {:induction false} LastOfNone(s: seq<Label>, k: string)
    ensures LastOf(s, k).None? <==> forall i :: 0 <= i < |s| ==> s[i].key != k
  {
    if s != [] {
      LastOfNone(s[..|s| - 1], k);
      assert forall i :: 0 <= i < |s| - 1 ==> s[..|s| - 1][i] == s[i];
    }
  }

  /** A position with no later pair of its key holds the last value. */
  lemma {:induction false} LastOfAt(s: seq<Label>, i: nat)
    requires i < |s| && forall j :: i < j < |s| ==> s[j].key != s[i].key
    ensures LastOf(s, s[i].key) == Some(s[i].value)
  {
    if i < |s| - 1 { LastOfAt(s[..|s| - 1], i); }
  }

  lemma StrictLast(s: seq<Label>, x: Label)
    requires StrictKeys(s)
    ensures x in s <==> LastOf(s, x.key) == Some(x.value)
  {
    LastOfNone(s, x.key);
    if i :| 0 <= i < |s| && s[i].key == x.key {
      forall j | i < j < |s| ensures s[j].key != s[i].key { LessTotal(s[i].key, s[j].key); }
      LastOfAt(s, i);
      if x in s {
        var j :| 0 <= j < |s| && s[j] == x;
        if j != i { LessTotal(s[i].key, s[j].key); }
      }
    }
  }

  /** `s` is the canonical listing of the label set `wanted`. */
  ghost predicate Canonical(s: seq<Label>, wanted: string -> Option<string>) {
    StrictKeys(s) && forall x :: x in s <==> wanted(x.key) == Some(x.value)
  }

  /** A label set has only one canonical listing. */
  lemma {:induction false} CanonicalUnique(s: seq<Label>, t: seq<Label>)
    requires StrictKeys(s) && StrictKeys(t) && forall x :: x in s <==> x in t
    ensures s == t
  {
    assert s == [] <==> t == [] by {
      if s != [] { assert s[0] in t; }
      if t != [] { assert t[0] in s; }
    }
    if s != [] {
      assert s[0] in t && t[0] in s;
      HeadIsLeast(s, t[0]);
      HeadIsLeast(t, s[0]);
      LessTotal(s[0].key, t[0].key);
      assert s[0] == t[0];
      TailMembers(s);
      TailMembers(t);
      CanonicalUnique(s[1..], t[1..]);
      assert s == [s[0]] + s[1..] && t == [t[0]] + t[1..];
    }
  }

  lemma HeadIsLeast(s: seq<Label>, x: Label)
    requires StrictKeys(s) && x in s
    ensures x == s[0] || Less(s[0].key, x.key)
  {
  }

  lemma TailMembers(s: seq<Label>)
    requires StrictKeys(s) && s != []
    ensures StrictKeys(s[1..]) && forall x :: x in s[1..] <==> x in s && x != s[0]
  {
    forall x | x in s[1..] ensures x in s && x != s[0] {
      var i :| 0 <= i < |s| - 1 && s[1..][i] == x;
      assert s[i + 1] == x;
      LessTotal(s[0].key, s[i + 1].key);
    }
    forall x | x in s && x != s[0] ensures x in s[1..] {
      var i :| 0 <= i < |s| && s[i] == x;
      assert s[1..][i - 1] == x;
    }
  }
}
