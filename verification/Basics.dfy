// Small datatypes and order facts shared by every module.

module Basics {
  datatype Option<+T> = None | Some(value: T)

  datatype Result<+T> = Ok(value: T) | Err

  newtype byte = x: int | 0 <= x < 256
  type Bytes = seq<byte>

  // Byte order on strings as Go compares them, shaped so that only its sign
  // matters to a caller.
  function Cmp(a: string, b: string): int
  {
    if a == "" then -|b|
    else if b == "" then |a|
    else if a[0] != b[0] then a[0] as int - b[0] as int
    else Cmp(a[1..], b[1..])
  }

  predicate Less(a: string, b: string) {
    Cmp(a, b) < 0
  }

  /** Which of two strings comes first is decided where they first differ, by the
      byte there; where neither differs, the one that ends first does. */
  lemma {:induction false} LessIsByteOrder(a: string, b: string)
    ensures Less(a, b) <==>
            exists i :: 0 <= i <= |a| && i <= |b| && a[..i] == b[..i] &&
                        (if i == |a| then i < |b| else i < |b| && a[i] < b[i])
  {
    if a == "" || b == "" || a[0] != b[0] {
      assert a[..0] == b[..0];
      assert a != "" && b != "" && a[0] != b[0] ==> forall i :: 0 < i <= |a| && i <= |b| ==> a[..i][0] != b[..i][0];
    } else {
      LessIsByteOrder(a[1..], b[1..]);
      if Less(a, b) {
        var i :| 0 <= i <= |a[1..]| && i <= |b[1..]| && a[1..][..i] == b[1..][..i] &&
                 (if i == |a[1..]| then i < |b[1..]| else i < |b[1..]| && a[1..][i] < b[1..][i]);
        assert a[..i + 1] == [a[0]] + a[1..][..i] && b[..i + 1] == [b[0]] + b[1..][..i];
      }
      if i :| 0 <= i <= |a| && i <= |b| && a[..i] == b[..i] && (if i == |a| then i < |b| else i < |b| && a[i] < b[i]) {
        assert i > 0 && a[1..][..i - 1] == a[..i][1..] == b[..i][1..] == b[1..][..i - 1];
      }
    }
  }

  lemma {:induction false} CmpSkipsCommon(a: string, b: string, i: nat)
    requires i <= |a| && i <= |b| && a[..i] == b[..i]
    ensures Cmp(a, b) == Cmp(a[i..], b[i..])
    decreases i
  {
    if i > 0 {
      assert a[0] == a[..i][0] == b[..i][0] == b[0];
      assert a[1..][..i - 1] == a[..i][1..] == b[..i][1..] == b[1..][..i - 1];
      CmpSkipsCommon(a[1..], b[1..], i - 1);
      assert a[1..][i - 1..] == a[i..] && b[1..][i - 1..] == b[i..];
    } else {
      assert a[0..] == a && b[0..] == b;
    }
  }

  lemma {:induction false} CmpIsEquality(a: string, b: string)
    ensures Cmp(a, b) == 0 <==> a == b
  {
    if a != "" && b != "" && a[0] == b[0] {
      CmpIsEquality(a[1..], b[1..]);
      assert a == [a[0]] + a[1..] && b == [b[0]] + b[1..];
    }
  }

  lemma {:induction false} CmpAntisymmetric(a: string, b: string)
    ensures Cmp(a, b) == -Cmp(b, a)
  {
    if a != "" && b != "" && a[0] == b[0] {
      CmpAntisymmetric(a[1..], b[1..]);
    }
  }

  lemma {:induction false} LessTransitive(a: string, b: string, c: string)
    requires Less(a, b) && Less(b, c)
    ensures Less(a, c)
  {
    if a != "" && b != "" && c != "" && a[0] == b[0] == c[0] {
      LessTransitive(a[1..], b[1..], c[1..]);
    }
  }
}
