// write_ico: a multi-resolution icon file of PNG blobs behind a directory.
module IcoFile {
  import opened Results

  type Byte = b: int | 0 <= b < 256

  type Bytes = seq<Byte>

  // An image, as its width and its PNG encoding.
  datatype Image = Image(width: nat, blob: Bytes)

  datatype PackError = NumberTooLarge

  const HEADER_SIZE := 6
  const ENTRY_SIZE := 16

  // Little-endian unsigned numbers, as struct.pack writes "<H" and "<I".
  function Pack16(n: nat): Bytes
    requires n < 0x1_0000
  {
    [n % 256, n / 256]
  }

  function Pack32(n: nat): Bytes
    requires n < 0x1_0000_0000
  {
    [n % 256, n / 256 % 256, n / 0x1_0000 % 256, n / 0x100_0000]
  }

  function Read32(file: Bytes, at: nat): nat
    requires at + 4 <= |file|
  {
    var a: int, b: int, c: int, d: int := file[at], file[at + 1], file[at + 2], file[at + 3];
    a + 256 * b + 0x1_0000 * c + 0x100_0000 * d
  }

  lemma Pack32Reads(n: nat)
    requires n < 0x1_0000_0000
    ensures Read32(Pack32(n), 0) == n
  {
    var a := n / 256;
    var b := a / 256;
    assert n / 0x1_0000 == b && n / 0x100_0000 == b / 256;
  }

  function Side(width: nat): Byte {
    if width >= 256 then 0 else width
  }

  function Entry(image: Image, offset: nat): (entry: Bytes)
    requires |image.blob| < 0x1_0000_0000 && offset < 0x1_0000_0000
    ensures |entry| == ENTRY_SIZE
  {
    [Side(image.width), Side(image.width), 0, 0] + Pack16(1) + Pack16(32) + Pack32(|image.blob|) + Pack32(offset)
  }

  ghost function Blobs(images: seq<Image>): Bytes {
    if images == [] then [] else Blobs(images[..|images| - 1]) + images[|images| - 1].blob
  }

  // Where the blob of image k starts: after the directory and the blobs
  // before it.
  ghost function OffsetOf(images: seq<Image>, k: nat): nat
    requires k <= |images|
  {
    HEADER_SIZE + ENTRY_SIZE * |images| + |Blobs(images[..k])|
  }

  // Every number written fits its field.
  ghost predicate Packable(images: seq<Image>) {
    && |images| < 0x1_0000
    && forall k :: 0 <= k < |images| ==> |images[k].blob| < 0x1_0000_0000 && OffsetOf(images, k) < 0x1_0000_0000
  }

  ghost function Entries(images: seq<Image>, k: nat): (entries: Bytes)
    requires Packable(images) && k <= |images|
    ensures |entries| == ENTRY_SIZE * k
  {
    if k == 0 then [] else Entries(images, k - 1) + Entry(images[k - 1], OffsetOf(images, k - 1))
  }

  ghost function IconFile(images: seq<Image>): Bytes
    requires Packable(images)
  {
    Pack16(0) + Pack16(1) + Pack16(|images|) + Entries(images, |images|) + Blobs(images)
  }

  method WriteIco(images: seq<Image>) returns (r: Result<Bytes, PackError>)
    ensures r.Success? <==> Packable(images)
    ensures r.Success? ==> r.value == IconFile(images)
  {
    if |images| >= 0x1_0000 {
      return Failure(NumberTooLarge);
    }
    var header := Pack16(0) + Pack16(1) + Pack16(|images|);
    var offset: nat := |header| + ENTRY_SIZE * |images|;
    var entries: Bytes := [];
    var blobs: Bytes := [];
    ghost var fits := true;
    for k := 0 to |images|
      invariant offset == OffsetOf(images, k) && blobs == Blobs(images[..k])
      invariant forall j :: 0 <= j < k ==> |images[j].blob| < 0x1_0000_0000 && OffsetOf(images, j) < 0x1_0000_0000
      invariant |entries| == ENTRY_SIZE * k
      invariant Packable(images) ==> entries == Entries(images, k)
    {
      assert images[..k + 1][..k] == images[..k];
      if |images[k].blob| >= 0x1_0000_0000 || offset >= 0x1_0000_0000 {
        return Failure(NumberTooLarge);
      }
      entries := entries + Entry(images[k], offset);
      blobs := blobs + images[k].blob;
      offset := offset + |images[k].blob|;
    }
    assert images[..|images|] == images;
    return Success(header + entries + blobs);
  }

  // ---------- Reading the file back ----------

  lemma {:induction false} EntryAt(images: seq<Image>, n: nat, k: nat)
    requires Packable(images) && k < n <= |images|
    ensures Entries(images, n)[ENTRY_SIZE * k..ENTRY_SIZE * (k + 1)] == Entry(images[k], OffsetOf(images, k))
  {
    if k < n - 1 {
      EntryAt(images, n - 1, k);
    }
  }

  lemma {:induction false} BlobAt(images: seq<Image>, n: nat, k: nat)
    requires k < n <= |images|
    ensures |Blobs(images[..k])| + |images[k].blob| == |Blobs(images[..k + 1])| <= |Blobs(images[..n])|
    ensures Blobs(images[..n])[|Blobs(images[..k])|..|Blobs(images[..k + 1])|] == images[k].blob
  {
    assert images[..n][..n - 1] == images[..n - 1];
    assert images[..k + 1][..k] == images[..k];
    if k < n - 1 {
      BlobAt(images, n - 1, k);
    }
  }

  // The length and offset fields of a directory entry.
  function EntryLength(file: Bytes, k: nat): nat
    requires HEADER_SIZE + ENTRY_SIZE * (k + 1) <= |file|
  {
    Read32(file, HEADER_SIZE + ENTRY_SIZE * k + 8)
  }

  function EntryOffset(file: Bytes, k: nat): nat
    requires HEADER_SIZE + ENTRY_SIZE * (k + 1) <= |file|
  {
    Read32(file, HEADER_SIZE + ENTRY_SIZE * k + 12)
  }

  lemma EndSlice(a: Bytes, b: Bytes, lo: nat, hi: nat)
    requires lo <= hi <= |b|
    ensures (a + b)[|a| + lo..|a| + hi] == b[lo..hi]
  {
  }

  lemma MiddleSlice(a: Bytes, b: Bytes, c: Bytes, lo: nat, hi: nat)
    requires lo <= hi <= |b|
    ensures (a + b + c)[|a| + lo..|a| + hi] == b[lo..hi]
  {
  }

  lemma SliceReads(file: Bytes, at: nat, part: Bytes, i: nat)
    requires at + |part| <= |file| && file[at..at + |part|] == part && i + 4 <= |part|
    ensures Read32(file, at + i) == Read32(part, i)
  {
    var slice := file[at..at + |part|];
    assert file[at + i] == slice[i] && file[at + i + 1] == slice[i + 1];
    assert file[at + i + 2] == slice[i + 2] && file[at + i + 3] == slice[i + 3];
  }

  lemma EntryReads(image: Image, offset: nat)
    requires |image.blob| < 0x1_0000_0000 && offset < 0x1_0000_0000
    ensures Read32(Entry(image, offset), 8) == |image.blob|
    ensures Read32(Entry(image, offset), 12) == offset
  {
    var entry := Entry(image, offset);
    assert entry[8..12] == Pack32(|image.blob|) && entry[12..16] == Pack32(offset);
    SliceReads(entry, 8, Pack32(|image.blob|), 0);
    SliceReads(entry, 12, Pack32(offset), 0);
    Pack32Reads(|image.blob|);
    Pack32Reads(offset);
  }

  lemma EntryInFile(images: seq<Image>, k: nat)
    requires Packable(images) && k < |images|
    ensures var at := HEADER_SIZE + ENTRY_SIZE * k;
      && at + ENTRY_SIZE <= |IconFile(images)|
      && IconFile(images)[at..at + ENTRY_SIZE] == Entry(images[k], OffsetOf(images, k))
  {
    var header := Pack16(0) + Pack16(1) + Pack16(|images|);
    EntryAt(images, |images|, k);
    MiddleSlice(header, Entries(images, |images|), Blobs(images), ENTRY_SIZE * k, ENTRY_SIZE * (k + 1));
  }

  lemma DirectoryReads(images: seq<Image>, k: nat)
    requires Packable(images) && k < |images|
    ensures HEADER_SIZE + ENTRY_SIZE * (k + 1) <= |IconFile(images)|
    ensures EntryLength(IconFile(images), k) == |images[k].blob|
    ensures EntryOffset(IconFile(images), k) == OffsetOf(images, k)
  {
    var file, offset := IconFile(images), OffsetOf(images, k);
    EntryInFile(images, k);
    EntryReads(images[k], offset);
    SliceReads(file, HEADER_SIZE + ENTRY_SIZE * k, Entry(images[k], offset), 8);
    SliceReads(file, HEADER_SIZE + ENTRY_SIZE * k, Entry(images[k], offset), 12);
  }

  function Read16(file: Bytes, at: nat): nat
    requires at + 2 <= |file|
  {
    var a: int, b: int := file[at], file[at + 1];
    a + 256 * b
  }

  // The header: a reserved zero, type 1 for icons, and the number of images.
  lemma HeaderReads(images: seq<Image>)
    requires Packable(images)
    ensures var file := IconFile(images);
      |file| >= HEADER_SIZE && Read16(file, 0) == 0 && Read16(file, 2) == 1 && Read16(file, 4) == |images|
  {
    var header := Pack16(0) + Pack16(1) + Pack16(|images|);
    assert header == [0, 0, 1, 0, |images| % 256, |images| / 256];
    MiddleSlice([], header, Entries(images, |images|) + Blobs(images), 0, HEADER_SIZE);
    assert IconFile(images) == [] + header + (Entries(images, |images|) + Blobs(images));
  }

  // The first eight bytes of an entry: both sides, with 0 for 256 and more, two
  // zeros, one plane and 32 bits a pixel.
  lemma EntryDescribes(images: seq<Image>, k: nat)
    requires Packable(images) && k < |images|
    ensures var file, at := IconFile(images), HEADER_SIZE + ENTRY_SIZE * k;
      && at + ENTRY_SIZE <= |file|
      && file[at] == file[at + 1] && (file[at] as int == if images[k].width < 256 then images[k].width else 0)
      && file[at + 2] == 0 && file[at + 3] == 0
      && Read16(file, at + 4) == 1 && Read16(file, at + 6) == 32
  {
    var file, at := IconFile(images), HEADER_SIZE + ENTRY_SIZE * k;
    EntryInFile(images, k);
    var entry := Entry(images[k], OffsetOf(images, k));
    var slice := file[at..at + ENTRY_SIZE];
    assert forall i :: 0 <= i < ENTRY_SIZE ==> file[at + i] == slice[i];
    assert entry[0] == entry[1] == Side(images[k].width) && entry[2] == 0 && entry[3] == 0;
    assert entry[4] == 1 && entry[5] == 0 && entry[6] == 32 && entry[7] == 0;
  }

  // Slicing the file at any directory entry gives exactly that image's blob;
  // the blobs follow the directory one after the other and end with the file.
  lemma IconRoundTrip(images: seq<Image>, k: nat)
    requires Packable(images) && k < |images|
    ensures var file := IconFile(images);
      && HEADER_SIZE + ENTRY_SIZE * |images| <= |file|
      && var offset, length := EntryOffset(file, k), EntryLength(file, k);
      && offset + length <= |file|
      && file[offset..offset + length] == images[k].blob
      && (k == 0 ==> offset == HEADER_SIZE + ENTRY_SIZE * |images|)
      && (if k + 1 < |images| then EntryOffset(file, k + 1) == offset + length else offset + length == |file|)
  {
    var n := |images|;
    DirectoryReads(images, k);
    if k + 1 < n {
      DirectoryReads(images, k + 1);
    }
    BlobInFile(images, k);
    assert images[..0] == [];
  }

  lemma BlobInFile(images: seq<Image>, k: nat)
    requires Packable(images) && k < |images|
    ensures var file, offset, end := IconFile(images), OffsetOf(images, k), OffsetOf(images, k + 1);
      && offset + |images[k].blob| == end <= |file|
      && file[offset..end] == images[k].blob
      && OffsetOf(images, |images|) == |file|
  {
    var n := |images|;
    assert images[..n] == images;
    BlobAt(images, n, k);
    BlobSlice(images, |Blobs(images[..k])|, |Blobs(images[..k + 1])|);
  }

  lemma BlobSlice(images: seq<Image>, lo: nat, hi: nat)
    requires Packable(images) && lo <= hi <= |Blobs(images)|
    ensures var start := HEADER_SIZE + ENTRY_SIZE * |images|;
      && |IconFile(images)| == start + |Blobs(images)|
      && IconFile(images)[start + lo..start + hi] == Blobs(images)[lo..hi]
  {
    EndSlice(Pack16(0) + Pack16(1) + Pack16(|images|) + Entries(images, |images|), Blobs(images), lo, hi);
  }
}
