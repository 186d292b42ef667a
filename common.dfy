/** Small helpers shared by the modules of this model. */
module Common {

  /** A value that may be absent (Python's None, an std::optional-like outcome). */
  datatype Option<+T> = None | Some(value: T)

  /** No element occurs twice in `s`. */
  ghost predicate NoDups<T>(s: seq<T>)
  {
    forall i, j :: 0 <= i < j < |s| ==> s[i] != s[j]
  }

  /** A prefix of a duplicate-free sequence is duplicate-free. */
  lemma NoDupsPrefix<T>(a: seq<T>, b: seq<T>)
    requires NoDups(a + b)
    ensures NoDups(a)
  {
    assert forall i :: 0 <= i < |a| ==> (a + b)[i] == a[i];
  }

  /** An element of a duplicate-free sequence occurs once in its multiset. */
  lemma {:induction false} NoDupsCountOne<T>(s: seq<T>, x: T)
    requires NoDups(s) && x in s
    ensures multiset(s)[x] == 1
    decreases |s|
  {
    var front := s[..|s| - 1];
    assert s == front + [s[|s| - 1]];
    NoDupsPrefix(front, [s[|s| - 1]]);
    if x == s[|s| - 1] {
      assert x !in front;
    } else {
      NoDupsCountOne(front, x);
    }
  }

  /** A permutation of a duplicate-free sequence is duplicate-free. */
  lemma NoDupsOfPermutation<T>(a: seq<T>, b: seq<T>)
    requires NoDups(a) && multiset(a) == multiset(b)
    ensures NoDups(b)
  {
    forall i, j | 0 <= i < j < |b|
      ensures b[i] != b[j]
    {
      if b[i] == b[j] {
        var x := b[i];
        assert b == b[..i] + [x] + b[i + 1..j] + [x] + b[j + 1..];
        assert multiset(b)[x] >= 2;
        assert x in multiset(a);
        NoDupsCountOne(a, x);
      }
    }
  }

  /** A duplicate-free sequence has as many distinct elements as entries. */
  lemma {:induction false} NoDupsSetSize<T>(s: seq<T>)
    requires NoDups(s)
    ensures |set x | x in s| == |s|
    decreases |s|
  {
    if s != [] {
      var front, last := s[..|s| - 1], s[|s| - 1];
      assert s == front + [last];
      NoDupsPrefix(front, [last]);
      NoDupsSetSize(front);
      assert (set x | x in s) == (set x | x in front) + {last};
      assert last !in (set x | x in front);
    }
  }

  /** A node as the reclaimers see it: one allocation of the lock-free queue
      (one `new Node`), whose address is passed around as a `void*`.  0 stands
      for `nullptr`.  Memory that `new` hands out again after a `delete[]` is a
      new allocation and so a new NodeId, even at the same address. */
  type NodeId = nat

  const NULL: NodeId := 0

  /** The range of a 32-bit C `int`, the type of every field the benchmark
      prints with %d. */
  predicate IsCInt(n: int)
  {
    -0x8000_0000 <= n < 0x8000_0000
  }

  predicate IsDigit(ch: char)
  {
    '0' <= ch <= '9'
  }

  predicate AllDigits(s: string)
  {
    forall i :: 0 <= i < |s| ==> IsDigit(s[i])
  }

  /** The value of a string of decimal digits, most significant first. */
  function DecimalValue(s: string): nat
    requires AllDigits(s)
    decreases |s|
  {
    if s == [] then 0
    else DecimalValue(s[..|s| - 1]) * 10 + (s[|s| - 1] - '0') as nat
  }

  /** The decimal rendering of n without sign or leading zeros, as printf's
      %d and Python's str() write it. */
  function NatToDecimal(n: nat): (s: string)
    ensures |s| > 0 && AllDigits(s)
    decreases n
  {
    if n < 10 then ['0' + n as char]
    else NatToDecimal(n / 10) + ['0' + (n % 10) as char]
  }

  /** printf's %d: a '-' before the digits of a negative number. */
  function IntToDecimal(n: int): (s: string)
    ensures |s| > 0
  {
    if n < 0 then "-" + NatToDecimal(-n) else NatToDecimal(n)
  }

  /** Reading back what NatToDecimal wrote gives the number. */
  lemma {:induction false} DecimalRoundTrip(n: nat)
    ensures DecimalValue(NatToDecimal(n)) == n
    decreases n
  {
    if n >= 10 {
      DecimalRoundTrip(n / 10);
      var s := NatToDecimal(n);
      assert s[..|s| - 1] == NatToDecimal(n / 10);
    }
  }
}
