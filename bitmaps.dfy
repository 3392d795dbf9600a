/**
 * The build of a project's bitmaps: the `BitmapsEnum` enumeration and the
 * record each bitmap contributes to the data buffer.
 *
 * The data buffer itself is not part of this model: a record is the
 * sequence of writes the build makes for it, and the array framing the
 * buffer adds around the records is left to it.
 */
module BitmapsBuild {
  import opened Wrappers
  import opened Strings
  import opened CodeGen

  /** A bitmap of the project, by name. */
  datatype BitmapAsset = BitmapAsset(name: string)

  /** What `getData` decodes from a bitmap: its size, bits per pixel and pixel bytes. */
  datatype BitmapData = BitmapData(width: int, height: int, bpp: int, pixels: seq<bv8>)

  datatype Bitmap = Bitmap(name: string, data: BitmapData)

  /** One call on the data buffer. */
  datatype Write = Int16(value: int) | Uint8Array(bytes: seq<bv8>)

  // ---------------------------------------------------------------------------
  // buildGuiBitmapsEnum

  function BitmapIdents(c: Conventions, assets: seq<BitmapAsset>): (r: seq<string>)
    ensures |r| == |assets|
  {
    seq(|assets|, i requires 0 <= i < |assets| => c.getName("BITMAP_ID_", assets[i].name, UnderscoreUpperCase))
  }

  function BitmapsEnumLines(c: Conventions, assets: seq<BitmapAsset>): (r: seq<string>)
    ensures |r| == |assets| + 1
  {
    EnumLines(c.tab, "BITMAP_ID_NONE", BitmapIdents(c, assets))
  }

  /** `buildGuiBitmapsEnum`. */
  function BitmapsEnum(c: Conventions, assets: seq<BitmapAsset>): string
  {
    EnumDeclaration("BitmapsEnum", BitmapsEnumLines(c, assets))
  }

  /**
   * `BITMAP_ID_NONE = 0` is the first member; the i-th bitmap's identifier
   * follows with a value that reads back as i+1; read line by line the text
   * is the header, each member with a comma except the last, and `};`.
   */
  lemma BitmapsEnumMembers(c: Conventions, assets: seq<BitmapAsset>)
    requires SingleLine(c)
    ensures var lines := BitmapsEnumLines(c, assets);
      && lines[0] == EnumMember(c.tab, "BITMAP_ID_NONE", 0)
      && (forall i :: 0 <= i < |assets| ==>
            lines[i + 1] == EnumMember(c.tab, c.getName("BITMAP_ID_", assets[i].name, UnderscoreUpperCase), i + 1))
      && Split(BitmapsEnum(c, assets), '\n') == [EnumHeader("BitmapsEnum")] + Terminated(lines, ",") + ["};"]
  {
    var idents := BitmapIdents(c, assets);
    forall k | 0 <= k < |idents| ensures '\n' !in idents[k] {
      assert idents[k] == c.getName("BITMAP_ID_", assets[k].name, UnderscoreUpperCase);
    }
    EnumLinesSingle(c.tab, "BITMAP_ID_NONE", idents);
    EnumDeclarationLines("BitmapsEnum", BitmapsEnumLines(c, assets));
  }

  /** The value the i-th member line carries reads back as its position. */
  lemma BitmapsEnumValues(c: Conventions, assets: seq<BitmapAsset>, i: nat)
    requires i <= |assets|
    ensures var ident := if i == 0 then "BITMAP_ID_NONE" else c.getName("BITMAP_ID_", assets[i - 1].name, UnderscoreUpperCase);
      var line := BitmapsEnumLines(c, assets)[i];
      var start := |c.tab + ident + " = "|;
      start <= |line| && ParseInt(line[start..]) == Some(i)
  {
    var ident := if i == 0 then "BITMAP_ID_NONE" else c.getName("BITMAP_ID_", assets[i - 1].name, UnderscoreUpperCase);
    var lines := BitmapsEnumLines(c, assets);
    if i == 0 {
      assert lines[0] == EnumMember(c.tab, ident, 0);
    } else {
      assert BitmapIdents(c, assets)[i - 1] == ident;
      assert lines[(i - 1) + 1] == EnumMember(c.tab, ident, i);
    }
    EnumMemberValue(c.tab, ident, i);
  }

  // ---------------------------------------------------------------------------
  // buildGuiBitmaps and buildGuiBitmapsData

  /**
   * `buildGuiBitmaps`: nothing when the project has no bitmaps, otherwise
   * each bitmap's name and decoded data, in order.
   */
  method CollectBitmaps(assets: seq<BitmapAsset>, getData: BitmapAsset -> BitmapData)
    returns (bitmaps: Option<seq<Bitmap>>)
    ensures bitmaps.None? <==> |assets| == 0
    ensures bitmaps.Some? ==> |bitmaps.value| == |assets|
    ensures bitmaps.Some? ==> forall i :: 0 <= i < |assets| ==> bitmaps.value[i] == Bitmap(assets[i].name, getData(assets[i]))
  {
    if |assets| == 0 {
      return None;
    }
    var collected: seq<Bitmap> := [];
    for i := 0 to |assets|
      invariant |collected| == i
      invariant forall k :: 0 <= k < i ==> collected[k] == Bitmap(assets[k].name, getData(assets[k]))
    {
      collected := collected + [Bitmap(assets[i].name, getData(assets[i]))];
    }
    return Some(collected);
  }

  /** The writes for one bitmap: width, height, bpp and a zero as int16, then the pixel bytes. */
  function Record(b: Bitmap): seq<Write>
  {
    [Int16(b.data.width), Int16(b.data.height), Int16(b.data.bpp), Int16(0), Uint8Array(b.data.pixels)]
  }

  /** The array the build writes: one record per bitmap, in order; none without bitmaps. */
  function Records(bitmaps: Option<seq<Bitmap>>): (r: seq<seq<Write>>)
    ensures |r| == if bitmaps.Some? then |bitmaps.value| else 0
  {
    var items := if bitmaps.Some? then bitmaps.value else [];
    seq(|items|, i requires 0 <= i < |items| => Record(items[i]))
  }

  /** A record read back from its writes, when it has the layout. */
  function ReadRecord(ws: seq<Write>): Option<BitmapData>
  {
    if |ws| == 5 && ws[0].Int16? && ws[1].Int16? && ws[2].Int16? && ws[3] == Int16(0) && ws[4].Uint8Array?
    then Some(BitmapData(ws[0].value, ws[1].value, ws[2].value, ws[4].bytes))
    else None
  }

  /** `buildGuiBitmapsData`: the records of the project's bitmaps. */
  method BuildGuiBitmapsData(assets: seq<BitmapAsset>, getData: BitmapAsset -> BitmapData)
    returns (records: seq<seq<Write>>)
    ensures |records| == |assets|
    ensures forall i :: 0 <= i < |assets| ==> ReadRecord(records[i]) == Some(getData(assets[i]))
  {
    var bitmaps := CollectBitmaps(assets, getData);
    records := Records(bitmaps);
    RecordsRoundTrip(bitmaps);
  }

  /** Each record reads back as the data of the bitmap at its position. */
  lemma RecordsRoundTrip(bitmaps: Option<seq<Bitmap>>)
    ensures bitmaps.Some? ==> forall i :: 0 <= i < |bitmaps.value| ==>
      ReadRecord(Records(bitmaps)[i]) == Some(bitmaps.value[i].data)
  {
    if bitmaps.Some? {
      forall i | 0 <= i < |bitmaps.value| ensures ReadRecord(Records(bitmaps)[i]) == Some(bitmaps.value[i].data) {
        assert Records(bitmaps)[i] == Record(bitmaps.value[i]);
      }
    }
  }
}
