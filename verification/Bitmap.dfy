/** A bitmap stored in bytes, one bit per index, least significant bit first. */
module Bitmap {

  /** `1 << k` as a byte. */
  function Place(k: nat): bv8
    requires k < 8
  {
    match k
    case 0 => 0x01
    case 1 => 0x02
    case 2 => 0x04
    case 3 => 0x08
    case 4 => 0x10
    case 5 => 0x20
    case 6 => 0x40
    case 7 => 0x80
  }

  predicate HasBit(byte: bv8, k: nat)
    requires k < 8
  {
    byte & Place(k) != 0
  }

  function SetBit(byte: bv8, k: nat): bv8
    requires k < 8
  {
    byte | Place(k)
  }

  function ClearBit(byte: bv8, k: nat): bv8
    requires k < 8
  {
    byte & !Place(k)
  }

  lemma PlacesApart(byte: bv8, j: nat, k: nat)
    requires j < 8 && k < 8
    ensures HasBit(SetBit(byte, j), k) <==> j == k || HasBit(byte, k)
    ensures HasBit(ClearBit(byte, j), k) <==> j != k && HasBit(byte, k)
  {
    hide Place;
    MasksApart(byte, j, k);
  }

  lemma MasksApart(byte: bv8, j: nat, k: nat)
    requires j < 8 && k < 8
    ensures (byte | Place(j)) & Place(k) != 0 <==> j == k || byte & Place(k) != 0
    ensures (byte & !Place(j)) & Place(k) != 0 <==> j != k && byte & Place(k) != 0
  {
  }

  predicate IsMarked(bytes: seq<bv8>, i: nat)
    requires i / 8 < |bytes|
  {
    HasBit(bytes[i / 8], i % 8)
  }

  function WithMark(bytes: seq<bv8>, i: nat): seq<bv8>
    requires i / 8 < |bytes|
  {
    bytes[i / 8 := SetBit(bytes[i / 8], i % 8)]
  }

  function WithoutMark(bytes: seq<bv8>, i: nat): seq<bv8>
    requires i / 8 < |bytes|
  {
    bytes[i / 8 := ClearBit(bytes[i / 8], i % 8)]
  }

  /** Setting or clearing one bit changes no other. */
  lemma OneBitChanges(bytes: seq<bv8>, i: nat, j: nat)
    requires i / 8 < |bytes| && j / 8 < |bytes|
    ensures IsMarked(WithMark(bytes, i), j) <==> j == i || IsMarked(bytes, j)
    ensures IsMarked(WithoutMark(bytes, i), j) <==> j != i && IsMarked(bytes, j)
  {
    hide HasBit, SetBit, ClearBit;
    PlacesApart(bytes[i / 8], i % 8, j % 8);
  }

  method Mark(nodes: array<bv8>, i: nat)
    requires i / 8 < nodes.Length
    modifies nodes
    ensures nodes[..] == WithMark(old(nodes[..]), i)
  {
    nodes[i / 8] := SetBit(nodes[i / 8], i % 8);
  }

  method Unmark(nodes: array<bv8>, i: nat)
    requires i / 8 < nodes.Length
    modifies nodes
    ensures nodes[..] == WithoutMark(old(nodes[..]), i)
  {
    nodes[i / 8] := ClearBit(nodes[i / 8], i % 8);
  }
}
