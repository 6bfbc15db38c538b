/** Unsigned little-endian integers of one to four bytes. */
module LittleEndian {

  type Byte = b: int | 0 <= b < 256

  function Le(bytes: seq<Byte>): nat {
    if bytes == [] then 0 else bytes[0] + 256 * Le(bytes[1..])
  }

  function ToLe(n: nat, width: nat): (bytes: seq<Byte>)
    ensures |bytes| == width
  {
    if width == 0 then [] else [n % 256] + ToLe(n / 256, width - 1)
  }

  /** One past the largest value of a width up to four bytes. */
  function Capacity(width: nat): nat {
    match width
    case 0 => 1
    case 1 => 0x100
    case 2 => 0x1_0000
    case 3 => 0x100_0000
    case _ => 0x1_0000_0000
  }

  lemma {:induction false} LeInRange(bytes: seq<Byte>)
    requires |bytes| <= 4
    ensures Le(bytes) < Capacity(|bytes|)
  {
    if bytes != [] {
      LeInRange(bytes[1..]);
    }
  }

  lemma {:induction false} LeOfToLe(n: nat, width: nat)
    requires width <= 4 && n < Capacity(width)
    ensures Le(ToLe(n, width)) == n
  {
    if width > 0 {
      LeOfToLe(n / 256, width - 1);
      assert ToLe(n, width)[1..] == ToLe(n / 256, width - 1);
    }
  }

  lemma {:induction false} ToLeOfLe(bytes: seq<Byte>)
    ensures ToLe(Le(bytes), |bytes|) == bytes
  {
    if bytes != [] {
      ToLeOfLe(bytes[1..]);
      assert Le(bytes) % 256 == bytes[0] && Le(bytes) / 256 == Le(bytes[1..]);
      assert bytes == [bytes[0]] + bytes[1..];
    }
  }

  lemma {:induction false} LeAppend(bytes: seq<Byte>, b: Byte)
    requires |bytes| <= 3
    ensures Le(bytes + [b]) == Le(bytes) + Capacity(|bytes|) * b
  {
    if bytes == [] {
      assert (bytes + [b])[1..] == [];
    } else {
      LeAppend(bytes[1..], b);
      assert (bytes + [b])[1..] == bytes[1..] + [b];
    }
  }

  /** Reads at most four bytes, lowest first. */
  method UintLe(bytes: seq<Byte>) returns (val: nat)
    ensures val == Le(bytes[..if |bytes| < 4 then |bytes| else 4])
    ensures val <= 0xFFFF_FFFF
  {
    val := 0;
    var place: nat := 1;
    var count := if |bytes| < 4 then |bytes| else 4;
    for i := 0 to count
      invariant val == Le(bytes[..i])
      invariant place == Capacity(i)
    {
      LeAppend(bytes[..i], bytes[i]);
      assert bytes[..i + 1] == bytes[..i] + [bytes[i]];
      val := val + place * bytes[i];
      place := place * 256;
    }
    LeInRange(bytes[..count]);
  }
}
