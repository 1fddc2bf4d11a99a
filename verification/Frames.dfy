/** The frames sent to the machine (CoffeeMaker::write in src/jutta_bt_proto/CoffeeMaker.cpp). */
module Frames {
  import opened Basics
  import opened Cipher

  /** The data with the key in its first byte and, if wanted, in its last byte. */
  function Keyed(data: seq<Byte>, key: Byte, overrideKey: bool): (r: seq<Byte>)
    requires data != []
    ensures |r| == |data| && r[0] == key
    ensures forall i :: 0 < i < |data| && (i < |data| - 1 || !overrideKey) ==> r[i] == data[i]
    ensures overrideKey ==> r[|r| - 1] == key
  {
    var first := data[0 := key];
    if overrideKey then first[|data| - 1 := key] else first
  }

  function Frame(data: seq<Byte>, key: Byte, overrideKey: bool): seq<Byte>
    requires data != []
  {
    Crypt(Keyed(data, key, overrideKey), key)
  }

  /** Decoding a frame gives the data with the key in its place; the first byte decoded is the key. */
  lemma FrameDecodes(data: seq<Byte>, key: Byte, overrideKey: bool)
    requires data != []
    ensures Crypt(Frame(data, key, overrideKey), key) == Keyed(data, key, overrideKey)
    ensures Crypt(Frame(data, key, overrideKey), key)[0] == key
  {
    Involution(Keyed(data, key, overrideKey), key);
  }

  /** An empty frame has no place for the key, so the source must not be asked to encode one. */
  method PrepareFrame(data: seq<Byte>, key: Byte, encode: bool, overrideKey: bool) returns (frame: seq<Byte>)
    requires encode ==> data != []
    ensures frame == if encode then Frame(data, key, overrideKey) else data
  {
    frame := data;
    if encode {
      var bytes := new Byte[|data|](i requires 0 <= i < |data| => data[i]);
      bytes[0] := key;
      if overrideKey {
        bytes[bytes.Length - 1] := key;
      }
      assert bytes[..] == Keyed(data, key, overrideKey);
      frame := EncDecBytes(bytes[..], key);
    }
  }
}
