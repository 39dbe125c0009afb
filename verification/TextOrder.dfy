/** Lexicographic order of text, as Python sorts strings and Redis orders members of equal score. */
module TextOrder {
  import opened Sorting

  predicate Before(a: string, b: string)
    decreases |a|
  {
    if b == [] then false
    else if a == [] then true
    else a[0] < b[0] || (a[0] == b[0] && Before(a[1..], b[1..]))
  }

  lemma {:induction false} Irreflexive(a: string)
    ensures !Before(a, a)
    decreases |a|
  {
    if a != [] { Irreflexive(a[1..]); }
  }

  lemma {:induction false} Connected(a: string, b: string)
    ensures a == b || Before(a, b) || Before(b, a)
    decreases |a|
  {
    if a != [] && b != [] && a[0] == b[0] {
      Connected(a[1..], b[1..]);
      assert a == [a[0]] + a[1..] && b == [b[0]] + b[1..];
    }
  }

  lemma {:induction false} Transitive(a: string, b: string, c: string)
    requires Before(a, b) && Before(b, c)
    ensures Before(a, c)
    decreases |a|
  {
    if a != [] && a[0] == b[0] && b[0] == c[0] { Transitive(a[1..], b[1..], c[1..]); }
  }

  lemma BeforeIsTotal()
    ensures StrictTotal(Before)
  {
    forall a ensures !Before(a, a) { Irreflexive(a); }
    forall a, b ensures a == b || Before(a, b) || Before(b, a) { Connected(a, b); }
    forall a, b, c | Before(a, b) && Before(b, c) ensures Before(a, c) { Transitive(a, b, c); }
  }

  /** `a` and `b` agree up to position `n`, and there `a` ends or has the smaller character. */
  predicate DiffersAt(a: string, b: string, n: int)
  {
    && 0 <= n <= |a| && n < |b| && a[..n] == b[..n]
    && (n < |a| ==> a[n] < b[n])
  }

  lemma {:induction false} BeforeIff(a: string, b: string)
    ensures Before(a, b) <==> exists n :: DiffersAt(a, b, n)
    decreases |a|
  {
    if a == [] {
      if b != [] { assert DiffersAt(a, b, 0); }
    } else if b != [] {
      BeforeIff(a[1..], b[1..]);
      if a[0] < b[0] { assert DiffersAt(a, b, 0); }
      if n :| a[0] == b[0] && DiffersAt(a[1..], b[1..], n) {
        assert a[..n + 1] == [a[0]] + a[1..][..n] && b[..n + 1] == [b[0]] + b[1..][..n];
        assert DiffersAt(a, b, n + 1);
      }
      if n :| DiffersAt(a, b, n) && n > 0 {
        assert a[0] == a[..n][0] == b[..n][0] == b[0];
        assert a[1..][..n - 1] == a[..n][1..] && b[1..][..n - 1] == b[..n][1..];
        assert DiffersAt(a[1..], b[1..], n - 1);
      }
    }
  }

  /** A member of a sorted set with its score. */
  datatype Entry = Entry(member: string, score: real)

  predicate Lower(a: Entry, b: Entry)
  {
    a.score < b.score || (a.score == b.score && Before(a.member, b.member))
  }

  lemma LowerIsTotal()
    ensures StrictTotal(Lower)
  {
    BeforeIsTotal();
    forall a, b, c | Lower(a, b) && Lower(b, c) ensures Lower(a, c) {
      if a.score == c.score { Transitive(a.member, b.member, c.member); }
    }
    forall a, b ensures a == b || Lower(a, b) || Lower(b, a) { Connected(a.member, b.member); }
    forall a ensures !Lower(a, a) { Irreflexive(a.member); }
  }

  function SortedText(keys: set<string>): (s: seq<string>)
    ensures Ascending(Before, s) && |s| == |keys| && forall k :: k in s <==> k in keys
  {
    BeforeIsTotal();
    Sort(Before, keys)
  }
}
