/** First-hit lookup, the order in which lsm/lsm.go and lsm/levels.go
    consult their stores: each candidate in turn, and the first non-nil
    entry wins. */
module Lookup {
  import opened Codec

  /** Position of the first non-nil candidate, or |s| when all are nil. */
  function HitIndex(s: seq<Entry?>): (n: nat)
    ensures n <= |s|
    ensures forall j :: 0 <= j < n ==> s[j] == null
    ensures n < |s| ==> s[n] != null
  {
    if s == [] then 0
    else if s[0] != null then 0
    else 1 + HitIndex(s[1..])
  }

  /** The Go idiom `if e := lookup(); e != nil { return e }` over a list of
      lookups: the first non-nil candidate, or nil. */
  function FirstEntry(s: seq<Entry?>): (r: Entry?)
  {
    if s == [] then null
    else if s[0] != null then s[0]
    else FirstEntry(s[1..])
  }

  /** The first hit is the candidate at the first non-nil position; it is nil
      exactly when every candidate is nil. */
  lemma {:induction false} FirstEntryIsFirstHit(s: seq<Entry?>)
    ensures HitIndex(s) < |s| ==> FirstEntry(s) == s[HitIndex(s)]
    ensures FirstEntry(s) == null <==> forall i :: 0 <= i < |s| ==> s[i] == null
  {
    if s != [] && s[0] == null {
      FirstEntryIsFirstHit(s[1..]);
      assert forall i :: 1 <= i < |s| ==> s[i] == s[1..][i - 1];
    }
  }

  /** Looking up in `a` and then in `b` is one lookup over `a + b`: `b` is
      reached only when every candidate of `a` is nil. */
  lemma {:induction false} FirstEntryAppend(a: seq<Entry?>, b: seq<Entry?>)
    ensures FirstEntry(a + b) == if FirstEntry(a) != null then FirstEntry(a) else FirstEntry(b)
  {
    if a == [] {
      assert a + b == b;
    } else {
      assert (a + b)[0] == a[0];
      assert (a + b)[1..] == a[1..] + b;
      FirstEntryAppend(a[1..], b);
    }
  }

  /** The position of the first hit in `a + b`. */
  lemma {:induction false} HitIndexAppend(a: seq<Entry?>, b: seq<Entry?>)
    ensures HitIndex(a + b) == if HitIndex(a) < |a| then HitIndex(a) else |a| + HitIndex(b)
  {
    if a == [] {
      assert a + b == b;
    } else {
      assert (a + b)[0] == a[0];
      assert (a + b)[1..] == a[1..] + b;
      HitIndexAppend(a[1..], b);
    }
  }
}
