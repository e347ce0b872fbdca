/** Register bytes, which are taken apart bit by bit, and the numbers they hold. */
module Bytes {
  type byte = bv8

  function ToByte(n: int): byte
    requires 0 <= n < 0x100
  {
    n as byte
  }

  lemma NextByte(v: byte)
    requires v != 255
    ensures (v + 1) as int == v as int + 1
  {
  }

  lemma FromInt(v: byte)
    ensures ToByte(v as int) == v
  {
  }

  /** Counting up reaches every number a byte can hold. */
  lemma {:induction false} FindByte(n: int) returns (v: byte)
    requires 0 <= n < 0x100
    ensures v as int == n
  {
    if n == 0 {
      v := 0;
    } else {
      var u := FindByte(n - 1);
      assert u != 255;
      NextByte(u);
      v := u + 1;
    }
  }

  lemma ByteBack(n: int)
    requires 0 <= n < 0x100
    ensures ToByte(n) as int == n
  {
    var v := FindByte(n);
    FromInt(v);
  }
}
