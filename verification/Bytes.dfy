/**
 Byte strings, their lexicographic order and the separator-based splitting the
 agent's keys rely on.  A Go string or `[]byte` is a sequence of 8-bit characters.
 */
module Bytes {

  type byte = c: char | c as int < 256

  type Bytes = seq<byte>

  datatype Option<+T> = None | Some(value: T)

  // ---------- Lexicographic order (bytes.Compare) ----------

  /** `bytes.Compare(a, b) <= 0`. */
  predicate Leq(a: Bytes, b: Bytes) {
    if a == [] then true
    else if b == [] then false
    else if a[0] != b[0] then a[0] < b[0]
    else Leq(a[1..], b[1..])
  }

  lemma {:induction false} LeqTotal(a: Bytes, b: Bytes)
    ensures Leq(a, b) || Leq(b, a)
  {
    if a != [] && b != [] && a[0] == b[0] {
      LeqTotal(a[1..], b[1..]);
    }
  }

  lemma {:induction false} LeqAntisymmetric(a: Bytes, b: Bytes)
    requires Leq(a, b) && Leq(b, a)
    ensures a == b
  {
    if a != [] && b != [] {
      LeqAntisymmetric(a[1..], b[1..]);
      assert a == [a[0]] + a[1..] && b == [b[0]] + b[1..];
    }
  }

  lemma {:induction false} LeqTransitive(a: Bytes, b: Bytes, c: Bytes)
    requires Leq(a, b) && Leq(b, c)
    ensures Leq(a, c)
  {
    if a != [] && b != [] && c != [] && a[0] == b[0] == c[0] {
      LeqTransitive(a[1..], b[1..], c[1..]);
    }
  }

  /** The strings agree before `i` and `a` has the smaller byte there. */
  predicate LowerAt(a: Bytes, b: Bytes, i: int) {
    0 <= i < |a| && i < |b| && a[..i] == b[..i] && a[i] < b[i]
  }

  lemma LowerAtFirst(a: Bytes, b: Bytes, i: int)
    requires a != [] && b != []
    ensures LowerAt(a, b, i) && i > 0 ==> a[0] == b[0]
  {
    assert LowerAt(a, b, i) && i > 0 ==> a[..i][0] == a[0] && b[..i][0] == b[0];
  }

  lemma LowerAtTail(a: Bytes, b: Bytes, i: int)
    requires a != [] && b != [] && a[0] == b[0] && i > 0
    ensures LowerAt(a, b, i) <==> LowerAt(a[1..], b[1..], i - 1)
  {
    if i < |a| && i < |b| {
      assert a[..i] == [a[0]] + a[1..][..i - 1] && b[..i] == [a[0]] + b[1..][..i - 1];
      assert a[..i][1..] == a[1..][..i - 1] && b[..i][1..] == b[1..][..i - 1];
    }
  }

  /** The order is the lexicographic one, smaller bytes first and prefixes before what extends them. */
  lemma {:induction false} LeqExact(a: Bytes, b: Bytes)
    ensures Leq(a, b) <==> a <= b || exists i :: LowerAt(a, b, i)
  {
    if a != [] && b != [] {
      if a[0] == b[0] {
        LeqExact(a[1..], b[1..]);
        assert a == [a[0]] + a[1..] && b == [a[0]] + b[1..];
        if i :| LowerAt(a, b, i) {
          LowerAtTail(a, b, i);
        }
        if i :| LowerAt(a[1..], b[1..], i) {
          LowerAtTail(a, b, i + 1);
        }
      } else if a[0] < b[0] {
        assert LowerAt(a, b, 0);
      } else {
        forall i ensures LowerAt(a, b, i) ==> i == 0 || a[0] == b[0] {
          LowerAtFirst(a, b, i);
        }
      }
    }
  }

  /** strings.TrimPrefix. */
  function TrimPrefix(s: Bytes, prefix: Bytes): Bytes {
    if prefix <= s then s[|prefix|..] else s
  }

  // ---------- strings.Split and its inverse ----------

  function Split(s: Bytes, sep: byte): (parts: seq<Bytes>)
    ensures |parts| >= 1
    ensures forall p :: p in parts ==> sep !in p
  {
    if s == [] then [[]]
    else if s[0] == sep then [[]] + Split(s[1..], sep)
    else
      var rest := Split(s[1..], sep);
      [[s[0]] + rest[0]] + rest[1..]
  }

  function Join(parts: seq<Bytes>, sep: byte): Bytes {
    if parts == [] then []
    else if |parts| == 1 then parts[0]
    else parts[0] + [sep] + Join(parts[1..], sep)
  }

  /** A separator-free head is split off whole. */
  lemma {:induction false} SplitHead(p: Bytes, rest: Bytes, sep: byte)
    requires sep !in p
    ensures Split(p + [sep] + rest, sep) == [p] + Split(rest, sep)
    ensures Split(p, sep) == [p]
  {
    var s := p + [sep] + rest;
    if p == [] {
      assert s[1..] == rest;
    } else {
      SplitHead(p[1..], rest, sep);
      assert s[1..] == p[1..] + [sep] + rest;
      assert p == [p[0]] + p[1..];
      assert ([p[1..]] + Split(rest, sep))[1..] == Split(rest, sep);
    }
  }

  /** Splitting undoes joining of separator-free parts. */
  lemma {:induction false} SplitJoin(parts: seq<Bytes>, sep: byte)
    requires parts != []
    requires forall p :: p in parts ==> sep !in p
    ensures Split(Join(parts, sep), sep) == parts
  {
    if |parts| == 1 {
      SplitHead(parts[0], [], sep);
    } else {
      var rest := Join(parts[1..], sep);
      SplitJoin(parts[1..], sep);
      SplitHead(parts[0], rest, sep);
      assert Join(parts, sep) == parts[0] + [sep] + rest;
      assert parts == [parts[0]] + parts[1..];
    }
  }

  /** A separator-free tail pins down where the last separator of a string is. */
  lemma {:induction false} LastSeparatorUnique(a: Bytes, x: Bytes, b: Bytes, y: Bytes, sep: byte)
    requires sep !in x && sep !in y
    requires a + [sep] + x == b + [sep] + y
    ensures a == b && x == y
  {
    var s := a + [sep] + x;
    assert s[|a|] == sep && s[|b|] == sep;
    assert |a| == |b|;
    assert a == s[..|a|] && b == s[..|b|];
    assert x == s[|a| + 1..] && y == s[|b| + 1..];
  }
}
