/** Names of nodes, namespaces and symbols: one to 127 printable bytes, with no path separator. */
module Names {
  import opened Bytes

  const NAME_MAX: nat := 127

  type Name = seq<byte>

  predicate NameByte(b: byte) {
    0x21 <= b <= 0x7e && b != 0x2f && b != 0x5c
  }

  predicate NameOk(name: Name) {
    0 < |name| <= NAME_MAX && forall i :: 0 <= i < |name| ==> NameByte(name[i])
  }

  method NameValid(name: Name) returns (ok: bool)
    ensures ok <==> NameOk(name)
  {
    if |name| == 0 || |name| > NAME_MAX { return false; }
    for index := 0 to |name|
      invariant forall i :: 0 <= i < index ==> NameByte(name[i])
    {
      if name[index] < 0x21 || name[index] > 0x7e || name[index] == 0x2f || name[index] == 0x5c { return false; }
    }
    return true;
  }
}
