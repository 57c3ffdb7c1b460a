/** Two-bit fields packed four to a byte, as the heap's allocation bitmap stores them. */
module HeapBitmap {
  import opened HeapRuns

  function IdBits(id: Id): bv8 {
    if id == 0 then 0 else if id == 1 then 1 else if id == 2 then 2 else 3
  }

  /** `bits << bit` for the four bit offsets a field can have. */
  function Shifted(bits: bv8, field: nat): bv8
    requires field < 4
  {
    if field == 0 then bits else if field == 1 then bits << 2 else if field == 2 then bits << 4 else bits << 6
  }

  function Unshifted(bits: bv8, field: nat): bv8
    requires field < 4
  {
    if field == 0 then bits else if field == 1 then bits >> 2 else if field == 2 then bits >> 4 else bits >> 6
  }

  function Mask(field: nat): bv8
    requires field < 4
  {
    Shifted(3, field)
  }

  /** The id in a field: the byte under the mask, shifted down. */
  function Field(b: bv8, field: nat): Id
    requires field < 4
  {
    var f := Unshifted(b & Mask(field), field);
    if f == 0 then 0 else if f == 1 then 1 else if f == 2 then 2 else 3
  }

  lemma OrField(b: bv8, field: nat, id: Id, other: nat)
    requires field < 4 && other < 4 && Field(b, field) == 0
    ensures Field(b | Shifted(IdBits(id), field), other) == if other == field then id else Field(b, other)
  {
  }

  lemma XorField(b: bv8, field: nat, other: nat)
    requires field < 4 && other < 4
    ensures Field(b ^ Shifted(IdBits(Field(b, field)), field), other) == if other == field then 0 else Field(b, other)
  {
  }

  function Slot(bytes: seq<bv8>, k: nat): Id
    requires k < 4 * |bytes|
  {
    Field(bytes[k / 4], k % 4)
  }

  /** `ids` are the fields of `bytes`, in order. */
  ghost predicate Decodes(bytes: seq<bv8>, ids: seq<Id>) {
    |ids| == 4 * |bytes| && forall k {:trigger Slot(bytes, k)} :: 0 <= k < |ids| ==> ids[k] == Slot(bytes, k)
  }

  /** Byte and field of the slot at bit `i`. */
  lemma BitLocation(i: nat)
    requires i % 2 == 0
    ensures i / 8 == (i / 2) / 4 && (i - 8 * (i / 8)) / 2 == (i / 2) % 4
  {
  }

  /** Setting the bits of an id in an empty slot changes that slot only. */
  lemma OrSlot(bytes: seq<bv8>, k: nat, id: Id, j: nat)
    requires k < 4 * |bytes| && j < 4 * |bytes| && Slot(bytes, k) == 0
    ensures Slot(bytes[k / 4 := bytes[k / 4] | Shifted(IdBits(id), k % 4)], j) == if j == k then id else Slot(bytes, j)
  {
    if j / 4 == k / 4 { OrField(bytes[k / 4], k % 4, id, j % 4); }
  }

  /** Toggling the bits of a slot's own id empties that slot and changes no other. */
  lemma XorSlot(bytes: seq<bv8>, k: nat, j: nat)
    requires k < 4 * |bytes| && j < 4 * |bytes|
    ensures Slot(bytes[k / 4 := bytes[k / 4] ^ Shifted(IdBits(Slot(bytes, k)), k % 4)], j)
         == if j == k then 0 else Slot(bytes, j)
  {
    if j / 4 == k / 4 { XorField(bytes[k / 4], k % 4, j % 4); }
  }

  lemma OrDecodes(bytes: seq<bv8>, ids: seq<Id>, k: nat, id: Id)
    requires Decodes(bytes, ids) && k < |ids| && ids[k] == 0
    ensures Decodes(bytes[k / 4 := bytes[k / 4] | Shifted(IdBits(id), k % 4)], ids[k := id])
  {
    var bytes' := bytes[k / 4 := bytes[k / 4] | Shifted(IdBits(id), k % 4)];
    assert ids[k] == Slot(bytes, k);
    forall j | 0 <= j < |ids| ensures ids[k := id][j] == Slot(bytes', j) {
      assert ids[j] == Slot(bytes, j);
      OrSlot(bytes, k, id, j);
    }
  }

  lemma XorDecodes(bytes: seq<bv8>, ids: seq<Id>, k: nat)
    requires Decodes(bytes, ids) && k < |ids|
    ensures Decodes(bytes[k / 4 := bytes[k / 4] ^ Shifted(IdBits(ids[k]), k % 4)], ids[k := 0])
  {
    assert ids[k] == Slot(bytes, k);
    var bytes' := bytes[k / 4 := bytes[k / 4] ^ Shifted(IdBits(ids[k]), k % 4)];
    forall j | 0 <= j < |ids| ensures ids[k := 0][j] == Slot(bytes', j) {
      assert ids[j] == Slot(bytes, j);
      XorSlot(bytes, k, j);
    }
  }

  /** The same at bit `i`, in the terms of byte and bit indices. */
  lemma OrAtBit(bytes: seq<bv8>, ids: seq<Id>, i: nat, id: Id)
    requires Decodes(bytes, ids) && i % 2 == 0 && i / 2 < |ids| && ids[i / 2] == 0
    ensures i / 8 < |bytes| && (i - 8 * (i / 8)) / 2 < 4
    ensures Decodes(bytes[i / 8 := bytes[i / 8] | Shifted(IdBits(id), (i - 8 * (i / 8)) / 2)], ids[i / 2 := id])
  {
    BitLocation(i);
    OrDecodes(bytes, ids, i / 2, id);
  }

  lemma XorAtBit(bytes: seq<bv8>, ids: seq<Id>, i: nat)
    requires Decodes(bytes, ids) && i % 2 == 0 && i / 2 < |ids|
    ensures i / 8 < |bytes| && (i - 8 * (i / 8)) / 2 < 4
    ensures Decodes(bytes[i / 8 := bytes[i / 8] ^ Shifted(IdBits(ids[i / 2]), (i - 8 * (i / 8)) / 2)], ids[i / 2 := 0])
  {
    BitLocation(i);
    XorDecodes(bytes, ids, i / 2);
  }

  lemma ZeroDecodes(bytes: seq<bv8>, ids: seq<Id>)
    requires |ids| == 4 * |bytes| && (forall j :: 0 <= j < |bytes| ==> bytes[j] == 0) &&
      forall k :: 0 <= k < |ids| ==> ids[k] == 0
    ensures Decodes(bytes, ids)
  {
    forall k | 0 <= k < |ids| ensures ids[k] == Slot(bytes, k) { assert Field(0, k % 4) == 0; }
  }
}
