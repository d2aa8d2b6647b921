/**
 * The PDF compressor screen's file list: adding the PDFs among picked or
 * dropped files, the simulated compression of one record or of every pending
 * one, removal, reset, and the totals shown under the list. Compression is a
 * size formula only: no PDF bytes are read or written.
 */
module PdfCompressor {
  import opened Wrappers

  /** The only file type the list accepts. */
  const PdfType: string := "application/pdf"
  /** The compression level on mount and after a reset, and the slider's range. */
  const DefaultLevel: int := 50
  const MinLevel: int := 10
  const MaxLevel: int := 90

  /** A picked or dropped file: its name, MIME type and size in bytes. */
  datatype FileInfo = FileInfo(name: string, mimeType: string, size: nat)

  /** One row of the list. */
  datatype FileData = FileData(id: string, file: FileInfo, originalSize: nat, compressedSize: nat,
                               compressed: bool, compressing: bool)

  /** The screen's state: the list and the slider's level. */
  datatype Compressor = Compressor(files: seq<FileData>, level: int)

  /** The totals under the list. */
  datatype Stats = Stats(totalOriginal: nat, totalCompressed: nat, totalSaved: int, percentSaved: int, count: nat)

  // ---------------------------------------------------------------------------
  // addFiles
  // ---------------------------------------------------------------------------

  /** The PDFs among `fs`, in their order. */
  function PdfFiles(fs: seq<FileInfo>): (pdfs: seq<FileInfo>)
    ensures |pdfs| <= |fs|
  {
    if |fs| == 0 then []
    else PdfFiles(fs[..|fs| - 1]) + (if fs[|fs| - 1].mimeType == PdfType then [fs[|fs| - 1]] else [])
  }

  /** A file is kept exactly when it is among the input and is a PDF. */
  lemma {:induction false} PdfFilesMembers(fs: seq<FileInfo>)
    ensures forall f :: f in PdfFiles(fs) <==> f in fs && f.mimeType == PdfType
  {
    if |fs| > 0 {
      PdfFilesMembers(fs[..|fs| - 1]);
      assert fs == fs[..|fs| - 1] + [fs[|fs| - 1]];
    }
  }

  /** A list of PDFs is kept whole. */
  lemma {:induction false} PdfFilesOfPdfs(fs: seq<FileInfo>)
    requires forall k | 0 <= k < |fs| :: fs[k].mimeType == PdfType
    ensures PdfFiles(fs) == fs
  {
    if |fs| > 0 {
      PdfFilesOfPdfs(fs[..|fs| - 1]);
      assert fs == fs[..|fs| - 1] + [fs[|fs| - 1]];
    }
  }

  /** The fresh row for a file: nothing compressed yet. */
  function NewRecord(f: FileInfo, id: string): FileData
  {
    FileData(id, f, f.size, 0, false, false)
  }

  /**
   * addFiles, with `ids` the identifiers made for the PDFs (from their names,
   * the clock and a random number). None is the "select valid PDF files"
   * alert, which leaves the list as it was.
   */
  function AddFiles(files: seq<FileData>, newFiles: seq<FileInfo>, ids: seq<string>): (r: Option<seq<FileData>>)
    requires |ids| == |PdfFiles(newFiles)|
    ensures r.Some? ==> |r.value| == |files| + |ids| && r.value[..|files|] == files
  {
    var pdfs := PdfFiles(newFiles);
    if |pdfs| == 0 then None
    else Some(files + seq(|pdfs|, k requires 0 <= k < |pdfs| => NewRecord(pdfs[k], ids[k])))
  }

  /** The alert comes exactly when none of the files is a PDF. */
  lemma AddFilesRejects(files: seq<FileData>, newFiles: seq<FileInfo>, ids: seq<string>)
    requires |ids| == |PdfFiles(newFiles)|
    ensures AddFiles(files, newFiles, ids).None? <==> forall f | f in newFiles :: f.mimeType != PdfType
  {
    PdfFilesMembers(newFiles);
    if |PdfFiles(newFiles)| > 0 {
      assert PdfFiles(newFiles)[0] in PdfFiles(newFiles);
    }
  }

  /**
   * The added rows follow the old ones, one per PDF in input order, each a PDF
   * of the input with its size as the original size and nothing compressed.
   */
  lemma AddFilesAppends(files: seq<FileData>, newFiles: seq<FileInfo>, ids: seq<string>)
    requires |ids| == |PdfFiles(newFiles)| && AddFiles(files, newFiles, ids).Some?
    ensures var r := AddFiles(files, newFiles, ids).value;
      forall k | |files| <= k < |r| ::
        && r[k].file == PdfFiles(newFiles)[k - |files|] && r[k].id == ids[k - |files|]
        && r[k].file in newFiles && r[k].file.mimeType == PdfType
        && r[k].originalSize == r[k].file.size && r[k].compressedSize == 0
        && !r[k].compressed && !r[k].compressing
  {
    PdfFilesMembers(newFiles);
    var r := AddFiles(files, newFiles, ids).value;
    forall k | |files| <= k < |r|
      ensures r[k].file in newFiles && r[k].file.mimeType == PdfType
    {
      assert r[k].file == PdfFiles(newFiles)[k - |files|];
    }
  }

  // ---------------------------------------------------------------------------
  // compressPdf and compressAll
  // ---------------------------------------------------------------------------

  /**
   * The simulated size at a compression level: the original size times
   * 1 − level/100 × 0.7, rounded down, written in exact integers.
   */
  function CompressedSize(size: nat, level: int): (s: int)
    requires MinLevel <= level <= MaxLevel
  {
    size * (1000 - 7 * level) / 1000
  }

  /** At a slider level the simulated size is between 0 and the original size, and the higher the level the smaller. */
  lemma CompressedSizeBounds(size: nat, level: int, level': int)
    requires MinLevel <= level <= level' <= MaxLevel
    ensures 0 <= CompressedSize(size, level') <= CompressedSize(size, level) <= size
  {
    assert size * (1000 - 7 * level') <= size * (1000 - 7 * level) <= size * 1000;
  }

  /** The size is the largest whole number not above the scaled size. */
  lemma CompressedSizeIsFloor(size: nat, level: int)
    requires MinLevel <= level <= MaxLevel
    ensures var s := CompressedSize(size, level);
      (s as real) <= (size as real) * (1.0 - (level as real) / 100.0 * 0.7) < (s + 1) as real
  {
    var s := CompressedSize(size, level);
    var n := size * (1000 - 7 * level);
    assert 1000 * s <= n < 1000 * (s + 1);
    assert (size as real) * (1.0 - (level as real) / 100.0 * 0.7) == (n as real) / 1000.0;
  }

  /** The first update of compressPdf: the rows with that id are marked as compressing. */
  function MarkCompressing(files: seq<FileData>, id: string): (r: seq<FileData>)
    ensures |r| == |files|
  {
    seq(|files|, k requires 0 <= k < |files| => if files[k].id == id then files[k].(compressing := true) else files[k])
  }

  /** A row after its compression finished at `level`. */
  function Compressed(f: FileData, level: int): FileData
    requires MinLevel <= level <= MaxLevel
  {
    f.(compressedSize := CompressedSize(f.originalSize, level), compressed := true, compressing := false)
  }

  /** The second update of compressPdf, two seconds later: the rows with that id are compressed. */
  function FinishCompressing(files: seq<FileData>, id: string, level: int): (r: seq<FileData>)
    requires MinLevel <= level <= MaxLevel
    ensures |r| == |files|
  {
    seq(|files|, k requires 0 <= k < |files| => if files[k].id == id then Compressed(files[k], level) else files[k])
  }

  /** compressPdf(id) at the level it was started with, once both updates have happened. */
  function CompressPdf(files: seq<FileData>, id: string, level: int): seq<FileData>
    requires MinLevel <= level <= MaxLevel
  {
    FinishCompressing(MarkCompressing(files, id), id, level)
  }

  /**
   * compressPdf touches only the rows with its id: each of those ends
   * compressed, no longer compressing, with the simulated size of its own
   * original size; every other row is as it was.
   */
  lemma CompressPdfOnlyThatId(files: seq<FileData>, id: string, level: int)
    requires MinLevel <= level <= MaxLevel
    ensures var r := CompressPdf(files, id, level);
      && |r| == |files|
      && forall k | 0 <= k < |files| ::
        if files[k].id == id then
          && r[k].compressed && !r[k].compressing
          && r[k].compressedSize == CompressedSize(files[k].originalSize, level)
          && r[k].(compressedSize := files[k].compressedSize, compressed := files[k].compressed,
                   compressing := files[k].compressing) == files[k]
        else r[k] == files[k]
  {
  }

  /** Compressing a compressed row again at the same level changes nothing. */
  lemma CompressedIdempotent(f: FileData, level: int)
    requires MinLevel <= level <= MaxLevel
    ensures Compressed(Compressed(f, level), level) == Compressed(f, level)
  {
  }

  /** Waiting to be compressed: neither compressed nor being compressed. */
  predicate Pending(f: FileData)
  {
    !f.compressed && !f.compressing
  }

  /** The ids of the pending rows, in list order: what compressAll goes through. */
  function PendingIds(files: seq<FileData>): (ids: seq<string>)
    ensures |ids| <= |files|
  {
    if |files| == 0 then []
    else PendingIds(files[..|files| - 1]) + (if Pending(files[|files| - 1]) then [files[|files| - 1].id] else [])
  }

  /** An id is gone through exactly when some pending row carries it. */
  lemma {:induction false} PendingIdsMembers(files: seq<FileData>)
    ensures forall id :: id in PendingIds(files) <==> exists k | 0 <= k < |files| :: files[k].id == id && Pending(files[k])
  {
    if |files| > 0 {
      var init := files[..|files| - 1];
      PendingIdsMembers(init);
      forall id | exists k | 0 <= k < |files| :: files[k].id == id && Pending(files[k])
        ensures id in PendingIds(files)
      {
        var k :| 0 <= k < |files| && files[k].id == id && Pending(files[k]);
        if k < |files| - 1 {
          assert init[k] == files[k];
        }
      }
      forall id | id in PendingIds(init)
        ensures exists k | 0 <= k < |files| :: files[k].id == id && Pending(files[k])
      {
        var k :| 0 <= k < |init| && init[k].id == id && Pending(init[k]);
        assert files[k] == init[k];
      }
    }
  }

  /** compressPdf for each id of `ids` in turn, at one level. */
  function CompressEach(files: seq<FileData>, ids: seq<string>, level: int): seq<FileData>
    requires MinLevel <= level <= MaxLevel
  {
    if |ids| == 0 then files
    else CompressPdf(CompressEach(files, ids[..|ids| - 1], level), ids[|ids| - 1], level)
  }

  /** After compressing each id of `ids`, exactly the rows whose id is among them are compressed; the rest are as they were. */
  lemma {:induction false} CompressEachOutcome(files: seq<FileData>, ids: seq<string>, level: int)
    requires MinLevel <= level <= MaxLevel
    ensures var r := CompressEach(files, ids, level);
      |r| == |files| && forall k | 0 <= k < |files| :: r[k] == if files[k].id in ids then Compressed(files[k], level) else files[k]
  {
    if |ids| > 0 {
      var init := ids[..|ids| - 1];
      CompressEachOutcome(files, init, level);
      assert forall id :: id in ids <==> id in init || id == ids[|ids| - 1] by {
        assert ids == init + [ids[|ids| - 1]];
      }
    }
  }

  /**
   * compressAll: takes the pending ids from the list as it stands, then
   * compresses them one after the other at the current level.
   */
  method CompressAll(files: seq<FileData>, level: int) returns (r: seq<FileData>)
    requires MinLevel <= level <= MaxLevel
    ensures r == CompressEach(files, PendingIds(files), level)
  {
    var pending := PendingIds(files);
    r := files;
    for i := 0 to |pending|
      invariant r == CompressEach(files, pending[..i], level)
    {
      assert pending[..i + 1][..i] == pending[..i];
      r := CompressPdf(r, pending[i], level);
    }
    assert pending[..|pending|] == pending;
  }

  /**
   * After compressAll every row that was pending is compressed at the level;
   * a row that was not is left alone unless it shares its id with a pending one.
   */
  lemma CompressAllOutcome(files: seq<FileData>, level: int)
    requires MinLevel <= level <= MaxLevel
    ensures var r := CompressEach(files, PendingIds(files), level);
      && |r| == |files|
      && (forall k | 0 <= k < |files| && Pending(files[k]) :: r[k] == Compressed(files[k], level))
      && (forall k | 0 <= k < |files| && (forall j | 0 <= j < |files| && Pending(files[j]) :: files[j].id != files[k].id) ::
            r[k] == files[k])
  {
    PendingIdsMembers(files);
    CompressEachOutcome(files, PendingIds(files), level);
  }

  // ---------------------------------------------------------------------------
  // removeFile
  // ---------------------------------------------------------------------------

  /** removeFile(id): the rows without that id, in their order. */
  function RemoveFile(files: seq<FileData>, id: string): (r: seq<FileData>)
    ensures |r| <= |files|
  {
    if |files| == 0 then []
    else RemoveFile(files[..|files| - 1], id) + (if files[|files| - 1].id != id then [files[|files| - 1]] else [])
  }

  /** A row stays exactly when it was there and has another id. */
  lemma {:induction false} RemoveFileMembers(files: seq<FileData>, id: string)
    ensures forall f :: f in RemoveFile(files, id) <==> f in files && f.id != id
  {
    if |files| > 0 {
      RemoveFileMembers(files[..|files| - 1], id);
      assert files == files[..|files| - 1] + [files[|files| - 1]];
    }
  }

  /** Removal works part by part, so the rows left keep their relative order. */
  lemma {:induction false} RemoveFileAppend(a: seq<FileData>, b: seq<FileData>, id: string)
    ensures RemoveFile(a + b, id) == RemoveFile(a, id) + RemoveFile(b, id)
    decreases |b|
  {
    if |b| > 0 {
      assert (a + b)[..|a + b| - 1] == a + b[..|b| - 1];
      RemoveFileAppend(a, b[..|b| - 1], id);
    } else {
      assert a + b == a;
    }
  }

  /** Removing an id no row carries changes nothing. */
  lemma {:induction false} RemoveAbsent(files: seq<FileData>, id: string)
    requires forall k | 0 <= k < |files| :: files[k].id != id
    ensures RemoveFile(files, id) == files
  {
    if |files| > 0 {
      RemoveAbsent(files[..|files| - 1], id);
      assert files == files[..|files| - 1] + [files[|files| - 1]];
    }
  }

  // ---------------------------------------------------------------------------
  // getTotalStats
  // ---------------------------------------------------------------------------

  /** The compressed rows, in their order. */
  function CompressedRows(files: seq<FileData>): (rows: seq<FileData>)
    ensures |rows| <= |files|
  {
    if |files| == 0 then []
    else CompressedRows(files[..|files| - 1]) + (if files[|files| - 1].compressed then [files[|files| - 1]] else [])
  }

  lemma {:induction false} CompressedRowsMembers(files: seq<FileData>)
    ensures forall f :: f in CompressedRows(files) <==> f in files && f.compressed
  {
    if |files| > 0 {
      CompressedRowsMembers(files[..|files| - 1]);
      assert files == files[..|files| - 1] + [files[|files| - 1]];
    }
  }

  lemma {:induction false} CompressedRowsAppend(a: seq<FileData>, b: seq<FileData>)
    ensures CompressedRows(a + b) == CompressedRows(a) + CompressedRows(b)
    decreases |b|
  {
    if |b| > 0 {
      assert (a + b)[..|a + b| - 1] == a + b[..|b| - 1];
      CompressedRowsAppend(a, b[..|b| - 1]);
    } else {
      assert a + b == a;
    }
  }

  function SumOriginal(rows: seq<FileData>): nat
  {
    if |rows| == 0 then 0 else SumOriginal(rows[..|rows| - 1]) + rows[|rows| - 1].originalSize
  }

  function SumCompressed(rows: seq<FileData>): nat
  {
    if |rows| == 0 then 0 else SumCompressed(rows[..|rows| - 1]) + rows[|rows| - 1].compressedSize
  }

  /** When no row grew, the compressed total is at most the original total. */
  lemma {:induction false} SumCompressedAtMost(rows: seq<FileData>)
    requires forall k | 0 <= k < |rows| :: rows[k].compressedSize <= rows[k].originalSize
    ensures SumCompressed(rows) <= SumOriginal(rows)
  {
    if |rows| > 0 {
      SumCompressedAtMost(rows[..|rows| - 1]);
    }
  }

  /** Math.round of 100 × saved / total for a positive total: the nearest whole percent, halves upwards. */
  function RoundPercent(saved: int, total: nat): int
    requires total > 0
  {
    (200 * saved + total) / (2 * total)
  }

  /** The rounded percentage is within half a percent of the exact one, halves rounding up. */
  lemma RoundPercentNearest(saved: int, total: nat)
    requires total > 0
    ensures var p := RoundPercent(saved, total);
      (p as real) - 0.5 <= 100.0 * (saved as real) / (total as real) < (p as real) + 0.5
  {
    var p := RoundPercent(saved, total);
    var n := 200 * saved + total;
    assert 2 * total * p <= n < 2 * total * (p + 1);
    var t := total as real;
    var x := 100.0 * (saved as real) / t;
    assert x * t == 100.0 * (saved as real);
    assert (x - ((p as real) - 0.5)) * (2.0 * t) == (n - 2 * total * p) as real;
    assert (((p as real) + 0.5) - x) * (2.0 * t) == (2 * total * (p + 1) - n) as real;
    SignOfFactor(x - ((p as real) - 0.5), 2.0 * t);
    SignOfFactor(((p as real) + 0.5) - x, 2.0 * t);
  }

  /** A factor of a product with a positive factor has the product's sign. */
  lemma SignOfFactor(a: real, t: real)
    requires t > 0.0
    ensures a * t >= 0.0 ==> a >= 0.0
    ensures a * t > 0.0 ==> a > 0.0
  {
  }

  /** A share of the total rounds to a percentage between 0 and 100. */
  lemma RoundPercentBounds(saved: int, total: nat)
    requires total > 0 && 0 <= saved <= total
    ensures 0 <= RoundPercent(saved, total) <= 100
  {
    assert 200 * saved + total < 2 * total * 101;
  }

  /** getTotalStats: totals over the compressed rows only. */
  function TotalStats(files: seq<FileData>): (s: Stats)
    ensures s.count == |CompressedRows(files)|
    ensures s.totalSaved == s.totalOriginal - s.totalCompressed
    ensures s.totalOriginal == 0 ==> s.percentSaved == 0
  {
    var rows := CompressedRows(files);
    var original := SumOriginal(rows);
    var compressed := SumCompressed(rows);
    var saved := original - compressed;
    Stats(original, compressed, saved, if original > 0 then RoundPercent(saved, original) else 0, |rows|)
  }

  /** No compressed row is larger than its original. */
  predicate SizesShrink(files: seq<FileData>)
  {
    forall k | 0 <= k < |files| :: files[k].compressed ==> files[k].compressedSize <= files[k].originalSize
  }

  /** When no row grew, the saving is between nothing and everything, and so is its percentage. */
  lemma StatsBounds(files: seq<FileData>)
    requires SizesShrink(files)
    ensures var s := TotalStats(files);
      0 <= s.totalSaved <= s.totalOriginal && 0 <= s.percentSaved <= 100
  {
    var rows := CompressedRows(files);
    CompressedRowsMembers(files);
    forall k | 0 <= k < |rows|
      ensures rows[k].compressedSize <= rows[k].originalSize
    {
      assert rows[k] in files;
    }
    SumCompressedAtMost(rows);
    if SumOriginal(rows) > 0 {
      RoundPercentBounds(SumOriginal(rows) - SumCompressed(rows), SumOriginal(rows));
    }
  }

  /** Adding files leaves the totals as they were: new rows are not compressed. */
  lemma AddFilesKeepsStats(files: seq<FileData>, newFiles: seq<FileInfo>, ids: seq<string>)
    requires |ids| == |PdfFiles(newFiles)| && AddFiles(files, newFiles, ids).Some?
    ensures TotalStats(AddFiles(files, newFiles, ids).value) == TotalStats(files)
  {
    var r := AddFiles(files, newFiles, ids).value;
    var added := r[|files|..];
    assert r == files + added;
    CompressedRowsAppend(files, added);
    NoneCompressed(added);
    assert CompressedRows(files) + [] == CompressedRows(files);
  }

  lemma {:induction false} NoneCompressed(rows: seq<FileData>)
    requires forall k | 0 <= k < |rows| :: !rows[k].compressed
    ensures CompressedRows(rows) == []
  {
    if |rows| > 0 {
      NoneCompressed(rows[..|rows| - 1]);
    }
  }

  // ---------------------------------------------------------------------------
  // The screen
  // ---------------------------------------------------------------------------

  /** The screen's invariant: the level is a slider value and no compressed row grew. */
  predicate Valid(c: Compressor)
  {
    MinLevel <= c.level <= MaxLevel && SizesShrink(c.files)
  }

  /** The screen on mount. */
  function Initial(): (c: Compressor)
    ensures Valid(c) && c.files == [] && TotalStats(c.files) == Stats(0, 0, 0, 0, 0)
  {
    Compressor([], DefaultLevel)
  }

  /** resetCompressor: the list emptied and the level back to 50. */
  function Reset(c: Compressor): (c': Compressor)
    ensures Valid(c') && c'.files == [] && c'.level == DefaultLevel && TotalStats(c'.files).count == 0
  {
    Initial()
  }

  /** The slider: a value from its range becomes the level. */
  function SetLevel(c: Compressor, level: int): (c': Compressor)
    requires MinLevel <= level <= MaxLevel
    ensures Valid(c) ==> Valid(c')
    ensures c'.files == c.files && c'.level == level
  {
    c.(level := level)
  }

  /** Compressing one row keeps the screen valid. */
  lemma CompressPdfKeepsValid(c: Compressor, id: string)
    requires Valid(c)
    ensures Valid(c.(files := CompressPdf(c.files, id, c.level)))
  {
    var r := CompressPdf(c.files, id, c.level);
    CompressPdfOnlyThatId(c.files, id, c.level);
    forall k | 0 <= k < |r| && r[k].compressed
      ensures r[k].compressedSize <= r[k].originalSize
    {
      if c.files[k].id == id {
        CompressedSizeBounds(c.files[k].originalSize, c.level, c.level);
      }
    }
  }

  /** Compressing everything pending keeps the screen valid. */
  lemma CompressAllKeepsValid(c: Compressor)
    requires Valid(c)
    ensures Valid(c.(files := CompressEach(c.files, PendingIds(c.files), c.level)))
  {
    var r := CompressEach(c.files, PendingIds(c.files), c.level);
    CompressEachOutcome(c.files, PendingIds(c.files), c.level);
    forall k | 0 <= k < |r| && r[k].compressed
      ensures r[k].compressedSize <= r[k].originalSize
    {
      CompressedSizeBounds(c.files[k].originalSize, c.level, c.level);
    }
  }

  /** Adding and removing files keep the screen valid. */
  lemma AddRemoveKeepValid(c: Compressor, newFiles: seq<FileInfo>, ids: seq<string>, id: string)
    requires Valid(c) && |ids| == |PdfFiles(newFiles)|
    ensures AddFiles(c.files, newFiles, ids).Some? ==> Valid(c.(files := AddFiles(c.files, newFiles, ids).value))
    ensures Valid(c.(files := RemoveFile(c.files, id)))
  {
    RemoveFileMembers(c.files, id);
    var r := RemoveFile(c.files, id);
    forall k | 0 <= k < |r| && r[k].compressed
      ensures r[k].compressedSize <= r[k].originalSize
    {
      assert r[k] in c.files;
    }
  }
}
