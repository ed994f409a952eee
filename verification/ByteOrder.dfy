/** Numbers and the bytes they are stored in, least significant byte first or in network order. */
module ByteOrder {

  predicate Bytes(bytes: seq<nat>) {
    forall i :: 0 <= i < |bytes| ==> bytes[i] < 256
  }

  function Power(n: nat): (p: nat)
    ensures p > 0
  {
    if n == 0 then 1 else 256 * Power(n - 1)
  }

  lemma {:induction false} PowerGrows(a: nat, b: nat)
    requires a < b
    ensures Power(a) < Power(b)
  {
    if a < b - 1 {
      PowerGrows(a, b - 1);
    }
  }

  /** The number a little-endian load makes of the bytes. */
  function Little(bytes: seq<nat>): nat {
    if bytes == [] then 0 else bytes[0] + 256 * Little(bytes[1..])
  }

  /** The number the bytes spell in network order. */
  function Big(bytes: seq<nat>): nat {
    if bytes == [] then 0 else 256 * Big(bytes[..|bytes| - 1]) + bytes[|bytes| - 1]
  }

  /** The bytes of `n` in memory on a little-endian host. */
  function LittleBytes(n: nat, size: nat): (bytes: seq<nat>)
    ensures |bytes| == size && Bytes(bytes)
  {
    if size == 0 then [] else [n % 256] + LittleBytes(n / 256, size - 1)
  }

  /** The bytes of `n` in network order. */
  function BigBytes(n: nat, size: nat): (bytes: seq<nat>)
    ensures |bytes| == size && Bytes(bytes)
  {
    if size == 0 then [] else BigBytes(n / 256, size - 1) + [n % 256]
  }

  /** `to_be` on a little-endian host. */
  function ToBigEndian(n: nat, size: nat): nat {
    Little(BigBytes(n, size))
  }

  lemma {:induction false} LittleIsSmall(bytes: seq<nat>)
    requires Bytes(bytes)
    ensures Little(bytes) < Power(|bytes|)
  {
    if bytes != [] {
      LittleIsSmall(bytes[1..]);
    }
  }

  lemma {:induction false} BigIsSmall(bytes: seq<nat>)
    requires Bytes(bytes)
    ensures Big(bytes) < Power(|bytes|)
  {
    if bytes != [] {
      BigIsSmall(bytes[..|bytes| - 1]);
    }
  }

  lemma DivideByteOut(n: nat, k: nat)
    requires n < 256 * k
    ensures n / 256 < k && n == 256 * (n / 256) + n % 256
  {
  }

  lemma {:induction false} LittleOfLittleBytes(n: nat, size: nat)
    requires n < Power(size)
    ensures Little(LittleBytes(n, size)) == n
  {
    if size > 0 {
      DivideByteOut(n, Power(size - 1));
      LittleOfLittleBytes(n / 256, size - 1);
      assert LittleBytes(n, size)[1..] == LittleBytes(n / 256, size - 1);
    }
  }

  lemma {:induction false} BigOfBigBytes(n: nat, size: nat)
    requires n < Power(size)
    ensures Big(BigBytes(n, size)) == n
  {
    if size > 0 {
      DivideByteOut(n, Power(size - 1));
      BigOfBigBytes(n / 256, size - 1);
      assert BigBytes(n, size)[..size - 1] == BigBytes(n / 256, size - 1);
    }
  }

  lemma {:induction false} LittleInjective(a: seq<nat>, b: seq<nat>)
    requires |a| == |b| && Bytes(a) && Bytes(b) && Little(a) == Little(b)
    ensures a == b
  {
    if a != [] {
      LittleInjective(a[1..], b[1..]);
      assert a == [a[0]] + a[1..] && b == [b[0]] + b[1..];
    }
  }

  lemma {:induction false} BigInjective(a: seq<nat>, b: seq<nat>)
    requires |a| == |b| && Bytes(a) && Bytes(b) && Big(a) == Big(b)
    ensures a == b
  {
    if a != [] {
      var last := |a| - 1;
      BigInjective(a[..last], b[..last]);
      assert a == a[..last] + [a[last]] && b == b[..last] + [b[last]];
    }
  }

  /** One more in byte `i` is one more power of 256 in the number. */
  lemma {:induction false} BumpLittle(bytes: seq<nat>, i: nat)
    requires i < |bytes|
    ensures Little(bytes[i := bytes[i] + 1]) == Little(bytes) + Power(i)
  {
    var more := bytes[i := bytes[i] + 1];
    if i == 0 {
      assert more[1..] == bytes[1..];
    } else {
      assert more[1..] == bytes[1..][i - 1 := bytes[1..][i - 1] + 1];
      BumpLittle(bytes[1..], i - 1);
    }
  }

  lemma {:induction false} BumpBig(bytes: seq<nat>, i: nat)
    requires i < |bytes|
    ensures Big(bytes[i := bytes[i] + 1]) == Big(bytes) + Power(|bytes| - 1 - i)
  {
    var more, last := bytes[i := bytes[i] + 1], |bytes| - 1;
    if i == last {
      assert more[..last] == bytes[..last];
    } else {
      assert more[..last] == bytes[..last][i := bytes[..last][i] + 1];
      BumpBig(bytes[..last], i);
    }
  }

  /** Taking a unit out of byte `i`. */
  lemma TakeUnit(bytes: seq<nat>, i: nat) returns (less: seq<nat>)
    requires Bytes(bytes) && i < |bytes| && bytes[i] > 0
    ensures less == bytes[i := bytes[i] - 1] && Bytes(less)
    ensures Little(bytes) == Little(less) + Power(i) && Big(bytes) == Big(less) + Power(|bytes| - 1 - i)
  {
    less := bytes[i := bytes[i] - 1];
    BumpLittle(less, i);
    BumpBig(less, i);
    assert less[i := less[i] + 1] == bytes;
  }

  lemma GiveUnit(bytes: seq<nat>, j: nat) returns (more: seq<nat>)
    requires Bytes(bytes) && j < |bytes| && bytes[j] < 255
    ensures |more| == |bytes| && Bytes(more)
    ensures Little(more) == Little(bytes) + Power(j) && Big(more) == Big(bytes) + Power(|bytes| - 1 - j)
  {
    more := bytes[j := bytes[j] + 1];
    BumpLittle(bytes, j);
    BumpBig(bytes, j);
  }

  /** Moving one unit between two bytes moves the two readings in opposite directions. */
  lemma MoveUnit(bytes: seq<nat>, i: nat, j: nat) returns (moved: seq<nat>)
    requires Bytes(bytes) && i < |bytes| && j < |bytes| && i != j && bytes[i] > 0 && bytes[j] < 255
    ensures Bytes(moved) && |moved| == |bytes|
    ensures (Big(moved) < Big(bytes) && Little(moved) > Little(bytes))
         || (Big(moved) > Big(bytes) && Little(moved) < Little(bytes))
  {
    var less := TakeUnit(bytes, i);
    moved := GiveUnit(less, j);
    var last := |bytes| - 1;
    if i < j {
      PowerGrows(i, j);
      PowerGrows(last - j, last - i);
    } else {
      PowerGrows(j, i);
      PowerGrows(last - i, last - j);
    }
  }

  predicate AllAre(bytes: seq<nat>, b: nat) {
    forall i :: 0 <= i < |bytes| ==> bytes[i] == b
  }

  /** Unless all bytes are 0 or all are 255, there is a unit to move. */
  lemma UnitToMove(bytes: seq<nat>) returns (i: nat, j: nat)
    requires Bytes(bytes) && |bytes| > 1 && !AllAre(bytes, 0) && !AllAre(bytes, 255)
    ensures i < |bytes| && j < |bytes| && i != j && bytes[i] > 0 && bytes[j] < 255
  {
    i :| 0 <= i < |bytes| && bytes[i] != 0;
    if k :| 0 <= k < |bytes| && k != i && bytes[k] < 255 {
      j := k;
    } else {
      j := i;
      i := if j == 0 then 1 else 0;
      var k :| 0 <= k < |bytes| && bytes[k] != 255;
      assert k == j;
    }
  }

  lemma {:induction false} ExtremeBytes(bytes: seq<nat>)
    requires Bytes(bytes)
    ensures AllAre(bytes, 0) <==> Big(bytes) == 0
    ensures AllAre(bytes, 0) <==> Little(bytes) == 0
    ensures AllAre(bytes, 255) <==> Big(bytes) == Power(|bytes|) - 1
    ensures AllAre(bytes, 255) <==> Little(bytes) == Power(|bytes|) - 1
  {
    if bytes != [] {
      var last := |bytes| - 1;
      var (front, rest) := (bytes[..last], bytes[1..]);
      ExtremeBytes(front);
      ExtremeBytes(rest);
      BigIsSmall(front);
      LittleIsSmall(rest);
      AllSplit(bytes, 0);
      AllSplit(bytes, 255);
    }
  }

  lemma AllSplit(bytes: seq<nat>, b: nat)
    requires bytes != []
    ensures AllAre(bytes, b) <==> AllAre(bytes[..|bytes| - 1], b) && bytes[|bytes| - 1] == b
    ensures AllAre(bytes, b) <==> bytes[0] == b && AllAre(bytes[1..], b)
  {
    assert AllAre(bytes[1..], b) ==> forall i :: 0 < i < |bytes| ==> bytes[i] == bytes[1..][i - 1];
  }

  /** The two readings of a field against the two readings of a literal. */
  lemma ReadingsAgree(field: seq<nat>, n: nat)
    requires Bytes(field) && n < Power(|field|)
    ensures Little(field) == ToBigEndian(n, |field|) <==> Big(field) == n
    ensures ToBigEndian(n, |field|) < Power(|field|)
    ensures ToBigEndian(n, |field|) == 0 <==> n == 0
    ensures ToBigEndian(n, |field|) == Power(|field|) - 1 <==> n == Power(|field|) - 1
  {
    var literal := BigBytes(n, |field|);
    BigOfBigBytes(n, |field|);
    LittleIsSmall(literal);
    ExtremeBytes(literal);
    if Little(field) == Little(literal) {
      LittleInjective(field, literal);
    }
    if Big(field) == n {
      BigInjective(field, literal);
    }
  }

  /** A number strictly between the extremes is overtaken by some field in one reading only. */
  lemma ReadingsDisagree(n: nat, size: nat) returns (field: seq<nat>)
    requires size > 1 && 0 < n < Power(size) - 1
    ensures |field| == size && Bytes(field)
    ensures (Big(field) < n && Little(field) > ToBigEndian(n, size))
         || (Big(field) > n && Little(field) < ToBigEndian(n, size))
  {
    var literal := BigBytes(n, size);
    BigOfBigBytes(n, size);
    ExtremeBytes(literal);
    var i, j := UnitToMove(literal);
    field := MoveUnit(literal, i, j);
  }
}
