/** Order-preserving embedding of one sequence into another, and concatenation. */
module Subsequence {
  /** `a` is obtained from `b` by deleting entries; the recursion takes both from the back. */
  ghost predicate Sub<T>(a: seq<T>, b: seq<T>)
    decreases |b|
  {
    a == [] ||
    (b != [] &&
     ((a[|a| - 1] == b[|b| - 1] && Sub(a[..|a| - 1], b[..|b| - 1])) || Sub(a, b[..|b| - 1])))
  }

  lemma {:induction false} SubRefl<T>(a: seq<T>)
    ensures Sub(a, a)
  {
    if a != [] {
      SubRefl(a[..|a| - 1]);
    }
  }

  lemma {:induction false} SubLength<T>(a: seq<T>, b: seq<T>)
    requires Sub(a, b)
    ensures |a| <= |b|
    ensures |a| == |b| ==> a == b
    decreases |b|
  {
    if a != [] {
      var a', b' := a[..|a| - 1], b[..|b| - 1];
      if a[|a| - 1] == b[|b| - 1] && Sub(a', b') {
        SubLength(a', b');
        assert a == a' + [a[|a| - 1]] && b == b' + [b[|b| - 1]];
      } else {
        SubLength(a, b');
      }
    }
  }

  /** Dropping the last entry of the smaller sequence. */
  lemma {:induction false} SubFront<T>(a: seq<T>, b: seq<T>)
    requires a != [] && Sub(a, b)
    ensures Sub(a[..|a| - 1], b)
    ensures Sub(a[..|a| - 1], b[..|b| - 1])
    decreases |b|
  {
    var a', b' := a[..|a| - 1], b[..|b| - 1];
    if !(a[|a| - 1] == b[|b| - 1] && Sub(a', b')) {
      SubFront(a, b');
    }
  }

  lemma {:induction false} SubTrans<T>(a: seq<T>, b: seq<T>, c: seq<T>)
    requires Sub(a, b) && Sub(b, c)
    ensures Sub(a, c)
    decreases |c|
  {
    if a != [] {
      var b', c' := b[..|b| - 1], c[..|c| - 1];
      if b[|b| - 1] == c[|c| - 1] && Sub(b', c') {
        if a[|a| - 1] == b[|b| - 1] && Sub(a[..|a| - 1], b') {
          SubTrans(a[..|a| - 1], b', c');
        } else {
          SubTrans(a, b', c');
        }
      } else {
        SubTrans(a, b, c');
      }
    }
  }

  lemma {:induction false} SubAppend<T>(a: seq<T>, b: seq<T>, t: seq<T>)
    requires Sub(a, b)
    ensures Sub(a + t, b + t)
    decreases |t|
  {
    if t == [] {
      assert a + t == a && b + t == b;
    } else {
      var t' := t[..|t| - 1];
      SubAppend(a, b, t');
      assert (a + t)[..|a + t| - 1] == a + t';
      assert (b + t)[..|b + t| - 1] == b + t';
    }
  }

  lemma {:induction false} SubExtend<T>(a: seq<T>, b: seq<T>, t: seq<T>)
    requires Sub(a, b)
    ensures Sub(a, b + t)
    decreases |t|
  {
    if t == [] {
      assert b + t == b;
    } else {
      var t' := t[..|t| - 1];
      SubExtend(a, b, t');
      assert (b + t)[..|b + t| - 1] == b + t';
    }
  }

  lemma SubConcat<T>(a: seq<T>, b: seq<T>, c: seq<T>, d: seq<T>)
    requires Sub(a, b) && Sub(c, d)
    ensures Sub(a + c, b + d)
  {
    SubAppend(a, b, c);
    SubPrepend(b, c, d);
    SubTrans(a + c, b + c, b + d);
  }

  lemma {:induction false} SubPrepend<T>(t: seq<T>, a: seq<T>, b: seq<T>)
    requires Sub(a, b)
    ensures Sub(t + a, t + b)
    decreases |b|
  {
    if a == [] {
      assert t + a == t;
      SubRefl(t);
      SubExtend(t, t, b);
    } else {
      var a', b' := a[..|a| - 1], b[..|b| - 1];
      assert (t + b)[..|t + b| - 1] == t + b';
      assert (t + a)[..|t + a| - 1] == t + a';
      if a[|a| - 1] == b[|b| - 1] && Sub(a', b') {
        SubPrepend(t, a', b');
      } else {
        SubPrepend(t, a, b');
      }
    }
  }

  /** Deleting a stretch in the middle. */
  lemma SubDrop<T>(a: seq<T>, m: seq<T>, b: seq<T>, c: seq<T>)
    requires Sub(a + (m + b), c)
    ensures Sub(a + b, c)
  {
    SubRefl(b);
    SubPrepend([], b, b);
    SubConcat([], m, b, b);
    assert [] + b == b;
    SubPrepend(a, b, m + b);
    SubTrans(a + b, a + (m + b), c);
  }

  lemma {:induction false} SubMember<T>(a: seq<T>, b: seq<T>, k: nat)
    requires Sub(a, b) && k < |a|
    ensures a[k] in b
    decreases |b|
  {
    var a', b' := a[..|a| - 1], b[..|b| - 1];
    if a[|a| - 1] == b[|b| - 1] && Sub(a', b') {
      if k < |a'| {
        SubMember(a', b', k);
      }
    } else {
      SubMember(a, b', k);
    }
  }

  lemma Assoc<T>(a: seq<T>, b: seq<T>, c: seq<T>)
    ensures (a + b) + c == a + (b + c)
  {
  }

  // The entries of one origin.

  /** In order, the entries whose origin is j. */
  function Of<T>(s: seq<T>, origin: T -> nat, j: nat): seq<T> {
    if s == [] then []
    else
      var x := s[|s| - 1];
      Of(s[..|s| - 1], origin, j) + if origin(x) == j then [x] else []
  }

  lemma OfAppend<T>(s: seq<T>, x: T, origin: T -> nat, j: nat)
    ensures Of(s + [x], origin, j) == Of(s, origin, j) + if origin(x) == j then [x] else []
  {
    assert (s + [x])[..|s|] == s;
  }

  lemma {:induction false} OfConcat<T>(a: seq<T>, b: seq<T>, origin: T -> nat, j: nat)
    ensures Of(a + b, origin, j) == Of(a, origin, j) + Of(b, origin, j)
  {
    if b == [] {
      assert a + b == a;
    } else {
      var front, x := b[..|b| - 1], b[|b| - 1];
      assert b == front + [x];
      assert a + b == (a + front) + [x];
      OfConcat(a, front, origin, j);
      OfAppend(a + front, x, origin, j);
    }
  }

  lemma {:induction false} SubOf<T>(a: seq<T>, b: seq<T>, origin: T -> nat, j: nat)
    requires Sub(a, b)
    ensures Sub(Of(a, origin, j), Of(b, origin, j))
    decreases |b|
  {
    if a != [] {
      var a', b' := a[..|a| - 1], b[..|b| - 1];
      var x := b[|b| - 1];
      var last := if origin(x) == j then [x] else [];
      if a[|a| - 1] == x && Sub(a', b') {
        SubOf(a', b', origin, j);
        SubAppend(Of(a', origin, j), Of(b', origin, j), last);
      } else {
        SubOf(a, b', origin, j);
        SubExtend(Of(a, origin, j), Of(b', origin, j), last);
      }
    }
  }

  // Concatenation.

  function Flat<T>(parts: seq<seq<T>>): seq<T> {
    if parts == [] then [] else parts[0] + Flat(parts[1..])
  }

  lemma {:induction false} FlatAppend<T>(parts: seq<seq<T>>, part: seq<T>)
    ensures Flat(parts + [part]) == Flat(parts) + part
  {
    if parts != [] {
      assert (parts + [part])[1..] == parts[1..] + [part];
      FlatAppend(parts[1..], part);
    }
  }
}
