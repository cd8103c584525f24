/** Vocabulary shared by every module: bytes, optional values and concatenation. */
module Common {

  /** One octet. The readers work on `Vec<u8>`, so every stream is a `seq<Byte>`. */
  type Byte = x: int | 0 <= x < 256

  datatype Option<+T> = None | Some(value: T)

  /** The bytes of an ASCII text. */
  function Ascii(s: string): seq<Byte> {
    seq(|s|, i requires 0 <= i < |s| => if s[i] < 128 as char then s[i] as int as Byte else 0)
  }

  /** The concatenation of a list of sequences. */
  function Flatten<T>(parts: seq<seq<T>>): seq<T> {
    if parts == [] then [] else parts[0] + Flatten(parts[1..])
  }

  lemma {:induction false} FlattenAppend<T>(a: seq<seq<T>>, b: seq<seq<T>>)
    ensures Flatten(a + b) == Flatten(a) + Flatten(b)
  {
    if a == [] {
      assert a + b == b;
    } else {
      assert (a + b)[1..] == a[1..] + b;
      FlattenAppend(a[1..], b);
    }
  }

  lemma FlattenOne<T>(part: seq<T>)
    ensures Flatten([part]) == part
  {
    assert Flatten([part]) == part + Flatten([]);
  }

  /** `a` is what is left of `b` after striking out some elements. */
  predicate Subsequence<T(==)>(a: seq<T>, b: seq<T>) {
    if b == [] then a == []
    else Subsequence(a, b[1..]) || (a != [] && a[0] == b[0] && Subsequence(a[1..], b[1..]))
  }

  lemma {:induction false} SubsequenceOfSelf<T>(a: seq<T>)
    ensures Subsequence(a, a)
  {
    if a != [] {
      SubsequenceOfSelf(a[1..]);
    }
  }

  lemma {:induction false} SubsequenceEmpty<T>(b: seq<T>)
    ensures Subsequence([], b)
  {
    if b != [] {
      SubsequenceEmpty(b[1..]);
    }
  }

  lemma {:induction false} SubsequenceTransitive<T>(a: seq<T>, b: seq<T>, c: seq<T>)
    requires Subsequence(a, b) && Subsequence(b, c)
    ensures Subsequence(a, c)
    decreases |c|, |b|
  {
    if c != [] {
      if Subsequence(b, c[1..]) {
        SubsequenceTransitive(a, b, c[1..]);
      } else if Subsequence(a, b[1..]) {
        SubsequenceTransitive(a, b[1..], c[1..]);
      } else {
        SubsequenceTransitive(a[1..], b[1..], c[1..]);
      }
    }
  }

  lemma {:induction false} SubsequenceAppend<T>(a: seq<T>, b: seq<T>, c: seq<T>)
    requires Subsequence(a, b)
    ensures Subsequence(a + c, b + c)
  {
    if b == [] {
      SubsequenceOfSelf(a + c);
    } else {
      assert (b + c)[1..] == b[1..] + c;
      if Subsequence(a, b[1..]) {
        SubsequenceAppend(a, b[1..], c);
      } else {
        SubsequenceAppend(a[1..], b[1..], c);
        assert (a + c)[1..] == a[1..] + c;
      }
    }
  }

  lemma {:induction false} SubsequencePrepend<T>(c: seq<T>, a: seq<T>, b: seq<T>)
    requires Subsequence(a, b)
    ensures Subsequence(c + a, c + b)
  {
    if c == [] {
      assert c + a == a && c + b == b;
    } else {
      SubsequencePrepend(c[1..], a, b);
      assert (c + a)[1..] == c[1..] + a && (c + b)[1..] == c[1..] + b;
    }
  }

  lemma {:induction false} SubsequenceExtend<T>(a: seq<T>, b: seq<T>, c: seq<T>)
    requires Subsequence(a, b)
    ensures Subsequence(a, b + c)
  {
    if b == [] {
      SubsequenceEmpty(b + c);
    } else {
      assert (b + c)[1..] == b[1..] + c;
      if Subsequence(a, b[1..]) {
        SubsequenceExtend(a, b[1..], c);
      } else {
        SubsequenceExtend(a[1..], b[1..], c);
      }
    }
  }
}
