/** Types every part of the model shares. */
module Basics {

  datatype Option<+T> = None | Some(value: T)

  /** A store path hash: the key of a row, of a blob and of a claim. */
  datatype Hash = Hash(key: string)

  /** What a claim on a store path is for: a blob on its way in, or a row and blob on their way out. */
  datatype Kind = Upload | Delete

  newtype byte = x: int | 0 <= x < 256

  /** SHA-256 as a free symbol: a digest stands for the bytes it was taken over. */
  datatype Digest = Sha256(bytes: seq<byte>)

  function Elems<T>(s: seq<T>): set<T> {
    set x | x in s
  }

  predicate NoDup<T(==)>(s: seq<T>) {
    forall i, j :: 0 <= i < j < |s| ==> s[i] != s[j]
  }

  lemma NoDupSnoc<T>(s: seq<T>, x: T)
    requires NoDup(s) && x !in Elems(s)
    ensures NoDup(s + [x]) && Elems(s + [x]) == Elems(s) + {x}
  {
    assert forall i :: 0 <= i < |s| ==> s[i] in Elems(s);
  }

  lemma {:induction false} NoDupCount<T>(s: seq<T>)
    requires NoDup(s)
    ensures |Elems(s)| == |s|
  {
    if s != [] {
      var front, last := s[..|s| - 1], s[|s| - 1];
      NoDupCount(front);
      assert Elems(s) == Elems(front) + {last};
    }
  }

  lemma {:induction false} SubsetCount<T>(a: set<T>, b: set<T>)
    requires a <= b
    ensures |a| <= |b| && (|a| == |b| ==> a == b)
  {
    if a != {} {
      var x :| x in a;
      SubsetCount(a - {x}, b - {x});
      assert a == (a - {x}) + {x} && b == (b - {x}) + {x};
    }
  }

  function Clamp(x: nat, low: nat, high: nat): nat
    requires low <= high
  {
    if x < low then low else if x > high then high else x
  }

  /** What is not in `out`, in order. */
  function Except<T(==)>(s: seq<T>, out: set<T>): (r: seq<T>)
    ensures Elems(r) == Elems(s) - out
  {
    if s == [] then []
    else
      var last := s[|s| - 1];
      var front := Except(s[..|s| - 1], out);
      assert Elems(s) == Elems(s[..|s| - 1]) + {last};
      assert Elems(front + [last]) == Elems(front) + {last};
      if last in out then front else front + [last]
  }

  lemma ExceptNext<T>(s: seq<T>, i: nat, out: set<T>)
    requires i < |s|
    ensures Except(s[..i + 1], out) == Except(s[..i], out) + if s[i] in out then [] else [s[i]]
  {
    assert s[..i + 1][..i] == s[..i];
  }

  /** One by one, and in the order they come in. */
  lemma {:induction false} ExceptInOrder<T>(a: seq<T>, b: seq<T>, out: set<T>)
    ensures Except(a + b, out) == Except(a, out) + Except(b, out)
    ensures |a| == 1 ==> Except(a, out) == if a[0] in out then [] else a
  {
    if |a| == 1 {
      assert a[..0] == [] && a == [a[0]];
    }
    if b == [] {
      assert a + b == a;
    } else {
      var n := |b| - 1;
      assert (a + b)[..|a + b| - 1] == a + b[..n] && (a + b)[|a + b| - 1] == b[n];
      ExceptInOrder(a, b[..n], out);
    }
  }

  function Pow2(k: nat): (r: nat)
    ensures r >= 1
  {
    if k == 0 then 1 else 2 * Pow2(k - 1)
  }

  lemma DivMod(n: nat, d: nat)
    requires d >= 1
    ensures n == n / d * d + n % d && 0 <= n % d < d && 0 <= n / d
  {
  }

  /** The sequence of `parts`, joined. */
  function Concat<T>(parts: seq<seq<T>>): seq<T> {
    if parts == [] then [] else parts[0] + Concat(parts[1..])
  }

  lemma Joined<T>(a: seq<T>, b: seq<T>, c: seq<T>)
    ensures a + (b + c) == a + b + c
  {
  }

  lemma {:induction false} ConcatSnoc<T>(parts: seq<seq<T>>, last: seq<T>)
    ensures Concat(parts + [last]) == Concat(parts) + last
  {
    if parts == [] {
      assert [last][1..] == [];
    } else {
      ConcatSnoc(parts[1..], last);
      assert (parts + [last])[1..] == parts[1..] + [last] && (parts + [last])[0] == parts[0];
      Joined(parts[0], Concat(parts[1..]), last);
    }
  }

  lemma {:induction false} ConcatAppend<T>(a: seq<seq<T>>, b: seq<seq<T>>)
    ensures Concat(a + b) == Concat(a) + Concat(b)
  {
    if a == [] {
      assert a + b == b;
    } else {
      ConcatAppend(a[1..], b);
      assert (a + b)[1..] == a[1..] + b && (a + b)[0] == a[0];
      Joined(a[0], Concat(a[1..]), Concat(b));
    }
  }

  lemma ConcatOfPrefix<T>(a: seq<seq<T>>, b: seq<seq<T>>)
    requires a <= b
    ensures |Concat(a)| <= |Concat(b)|
  {
    ConcatAppend(a, b[|a|..]);
    assert a + b[|a|..] == b;
  }

  // ------------------------------------------------------------ the order of text

  /** Byte order, as SQLite compares text: a proper prefix comes first. */
  predicate Before(a: string, b: string) {
    if b == [] then false
    else if a == [] then true
    else a[0] < b[0] || (a[0] == b[0] && Before(a[1..], b[1..]))
  }

  /** Up to `k` the two are the same, and there `a` ends or has the lesser byte. */
  predicate DiffersAt(a: string, b: string, k: nat) {
    k <= |a| && k < |b| && a[..k] == b[..k] && (k == |a| || a[k] < b[k])
  }

  lemma {:induction false} BeforeIsByteOrder(a: string, b: string)
    ensures Before(a, b) <==> exists k: nat :: DiffersAt(a, b, k)
  {
    if a != [] && b != [] && a[0] == b[0] {
      BeforeIsByteOrder(a[1..], b[1..]);
      if k: nat :| DiffersAt(a[1..], b[1..], k) {
        assert a[..k + 1] == [a[0]] + a[1..][..k] && b[..k + 1] == [b[0]] + b[1..][..k];
        assert DiffersAt(a, b, k + 1);
      }
      if k: nat :| DiffersAt(a, b, k) {
        assert k > 0 && a[1..][..k - 1] == a[..k][1..] && b[1..][..k - 1] == b[..k][1..];
        assert DiffersAt(a[1..], b[1..], k - 1);
      }
    } else {
      assert Before(a, b) ==> DiffersAt(a, b, 0);
      assert forall k: nat :: DiffersAt(a, b, k) && k > 0 ==> a[..k][0] == a[0] && b[..k][0] == b[0];
    }
  }

  lemma {:induction false} BeforeIsStrict(a: string, b: string)
    ensures !(Before(a, b) && Before(b, a)) && !Before(a, a)
  {
    if a != [] {
      BeforeIsStrict(a[1..], if b == [] then [] else b[1..]);
    }
  }

  lemma {:induction false} BeforeIsTotal(a: string, b: string)
    ensures Before(a, b) || Before(b, a) || a == b
  {
    if a != [] && b != [] {
      BeforeIsTotal(a[1..], b[1..]);
      assert a == [a[0]] + a[1..] && b == [b[0]] + b[1..];
    }
  }

  lemma {:induction false} BeforeIsTransitive(a: string, b: string, c: string)
    requires Before(a, b) && Before(b, c)
    ensures Before(a, c)
  {
    if a != [] && a[0] == b[0] == c[0] {
      BeforeIsTransitive(a[1..], b[1..], c[1..]);
    }
  }
}
