/**
 * The region catalogue (`get_wilayah_list`) and the region selector's labels: each
 * catalogue row carries an id and a composite name "Kecamatan, Kota, Provinsi".
 */
module Regions {
  import opened Text

  /** One row of the catalogue file: the region id and its composite name. */
  datatype CatalogRow = CatalogRow(id: string, nama: string)

  /** One entry of the selector list. */
  datatype Region = Region(id: string, kecamatan: string, kota: string)

  /** The first comma-separated piece of a composite name, stripped. */
  function District(nama: string): (kecamatan: string)
    ensures ',' !in kecamatan && Trimmed(kecamatan)
  {
    var parts := Split(nama, ',');
    SplitPiecesHaveNoSeparator(nama, ',');
    assert parts[0] in parts;
    Strip(parts[0])
  }

  /** The second comma-separated piece of a composite name, stripped, or "" if there is none. */
  function Town(nama: string): (kota: string)
    ensures ',' !in kota && Trimmed(kota)
  {
    var parts := Split(nama, ',');
    SplitPiecesHaveNoSeparator(nama, ',');
    if |parts| > 1 then
      assert parts[1] in parts;
      Strip(parts[1])
    else ""
  }

  /**
   * One catalogue row as a selector entry: the id unchanged, the first comma-separated
   * piece of the name as the district, the second as the town, both stripped; a name
   * without a comma gives an empty town. No piece keeps a comma or surrounding white space.
   */
  function ParseRegion(row: CatalogRow): (w: Region)
    ensures w.id == row.id
    ensures ',' !in w.kecamatan && ',' !in w.kota
    ensures Trimmed(w.kecamatan) && Trimmed(w.kota)
  {
    Region(row.id, District(row.nama), Town(row.nama))
  }

  /** A name without a comma is all district, and the town is empty. */
  lemma ParseWithoutComma(id: string, nama: string)
    requires ',' !in nama
    ensures ParseRegion(CatalogRow(id, nama)) == Region(id, Strip(nama), "")
  {
    SplitNoSeparator(nama, ',');
  }

  /**
   * With at least one comma: the district is the text before the first comma and the town
   * the text after it, up to the next comma if there is one.
   */
  lemma ParseWithComma(id: string, kecamatan: string, kota: string, rest: string)
    requires ',' !in kecamatan && ',' !in kota
    requires rest == [] || rest[0] == ','
    ensures ParseRegion(CatalogRow(id, kecamatan + "," + kota + rest))
         == Region(id, Strip(kecamatan), Strip(kota))
  {
    var nama := kecamatan + "," + kota + rest;
    assert nama == kecamatan + [','] + (kota + rest);
    SplitAt(kecamatan, ',', kota + rest);
    SplitNoSeparator(kecamatan, ',');
    if rest == [] {
      assert kota + rest == kota;
      SplitNoSeparator(kota, ',');
    } else {
      assert kota + rest == kota + [','] + rest[1..];
      SplitAt(kota, ',', rest[1..]);
      SplitNoSeparator(kota, ',');
    }
  }

  /** The loop of `get_wilayah_list`: one selector entry per catalogue row, in catalogue order. */
  method WilayahList(df: seq<CatalogRow>) returns (wilayah: seq<Region>)
    ensures |wilayah| == |df|
    ensures forall i :: 0 <= i < |df| ==> wilayah[i] == ParseRegion(df[i])
  {
    wilayah := [];
    for k := 0 to |df|
      invariant |wilayah| == k
      invariant forall i :: 0 <= i < k ==> wilayah[i] == ParseRegion(df[i])
    {
      var w := ParseRegion(df[k]);
      ghost var before := wilayah;
      wilayah := wilayah + [w];
      assert forall i :: 0 <= i < k ==> wilayah[i] == before[i];
    }
  }

  // ---------------------------------------------------------------- selector labels

  /** The selector's label for an entry: "kecamatan - kota (id)". */
  function Label(w: Region): string
  {
    w.kecamatan + " - " + w.kota + " (" + w.id + ")"
  }

  /** The labels of the selector, one per entry and in the same order. */
  function Labels(wilayah: seq<Region>): (names: seq<string>)
    ensures |names| == |wilayah|
  {
    seq(|wilayah|, i requires 0 <= i < |wilayah| => Label(wilayah[i]))
  }

  /**
   * The id read back from a chosen label: the text after the last "(", with every ")"
   * deleted. The result never holds a parenthesis.
   */
  function SelectedId(name: string): (id: string)
    ensures '(' !in id && ')' !in id
  {
    var parts := Split(name, '(');
    SplitPiecesHaveNoSeparator(name, '(');
    assert parts[|parts| - 1] in parts;
    Remove(parts[|parts| - 1], ')')
  }

  /**
   * Reading the id back from an entry's label gives the entry's id exactly when the id has
   * no parenthesis, whatever the district and town names hold.
   */
  lemma LabelRoundTrip(w: Region)
    ensures SelectedId(Label(w)) == w.id <==> '(' !in w.id && ')' !in w.id
  {
    if '(' !in w.id && ')' !in w.id {
      var front := w.kecamatan + " - " + w.kota + " ";
      var back := w.id + ")";
      assert Label(w) == front + ['('] + back;
      SplitAt(front, '(', back);
      assert '(' !in back;
      SplitNoSeparator(back, '(');
      RemoveAppend(w.id, ")", ')');
      RemoveAbsent(w.id, ')');
      assert Remove(")", ')') == [];
    }
  }

  /** Every entry of the selector list leads back to its own id. */
  lemma SelectedIdOfList(wilayah: seq<Region>, i: nat)
    requires i < |wilayah|
    requires '(' !in wilayah[i].id && ')' !in wilayah[i].id
    ensures SelectedId(Labels(wilayah)[i]) == wilayah[i].id
  {
    LabelRoundTrip(wilayah[i]);
  }
}
