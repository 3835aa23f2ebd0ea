/** What a reader finds in the archives of both writers. */
module UstarReader {
  import opened Common
  import opened Octal
  import opened TarFormat
  import opened Ustar

  // ---- Fields of a written header ----

  /** Byte by byte, what the header without its checksum holds. */
  lemma UnsummedBytes(w: Writer, name: seq<Byte>, size: nat, i: nat)
    requires |name| <= 100 && i < BLOCK
    ensures Unsummed(w, name, size)[i] ==
            if i < |name| then name[i]
            else if 100 <= i < 108 then MODE[i - 100]
            else if 108 <= i < 116 then 48 * (if i < 115 then 1 else 0)
            else if 116 <= i < 124 then 48 * (if i < 123 then 1 else 0)
            else if 124 <= i < 136 then SizeField(w, size)[i - 124]
            else if 136 <= i < 148 then 48 * (if i < 147 then 1 else 0)
            else if 148 <= i < 156 then 32
            else if i == 156 then 48
            else if 257 <= i < 263 then USTAR[i - 257]
            else if 263 <= i < 265 then 48
            else 0
  {}

  lemma UnsummedText(w: Writer, name: seq<Byte>, size: nat)
    requires |name| <= 100
    ensures var u := Unsummed(w, name, size);
            u[..100] == name + Blank(100 - |name|) && u[124..136] == SizeField(w, size)
  {
    var u := Unsummed(w, name, size);
    forall i: nat | i < BLOCK
      ensures i < 100 ==> u[i] == if i < |name| then name[i] else 0
      ensures 124 <= i < 136 ==> u[i] == SizeField(w, size)[i - 124]
    {
      UnsummedBytes(w, name, size, i);
    }
    hide Unsummed, SizeField;
  }

  lemma UnsummedConstants(w: Writer, name: seq<Byte>, size: nat)
    requires |name| <= 100
    ensures var u := Unsummed(w, name, size);
            && u[148..156] == SPACES && u[156] == 48
            && u[257..263] == USTAR && u[263..265] == VERSION && u[345..500] == Blank(155)
  {
    var u := Unsummed(w, name, size);
    forall i: nat | i < BLOCK
      ensures 148 <= i < 156 ==> u[i] == 32
      ensures i == 156 ==> u[i] == 48
      ensures 257 <= i < 263 ==> u[i] == USTAR[i - 257]
      ensures 263 <= i < 265 ==> u[i] == 48
      ensures 265 <= i ==> u[i] == 0
    {
      UnsummedBytes(w, name, size, i);
    }
    hide Unsummed;
  }

  /** Only the checksum field is written last. */
  lemma HeaderKeeps(w: Writer, name: seq<Byte>, size: nat)
    requires |name| <= 100
    ensures var h := Header(w, name, size); var u := Unsummed(w, name, size);
            && h[..148] == u[..148] && h[156..] == u[156..]
            && (forall i :: 0 <= i < 148 || 156 <= i < BLOCK ==> h[i] == u[i])
            && h[148..156] == ChecksumField(w, SumBytes(u))
  {
    ChecksumFieldReadsBack(w, Unsummed(w, name, size));
    hide Unsummed, ChecksumField;
  }

  lemma SameSlice(h: seq<Byte>, u: seq<Byte>, from: nat, to: nat)
    requires |h| == |u| == BLOCK && from <= to <= BLOCK
    requires forall i :: from <= i < to ==> h[i] == u[i]
    ensures h[from..to] == u[from..to]
  {}

  lemma HeaderFields(w: Writer, name: seq<Byte>, size: nat)
    requires |name| <= 100
    ensures var h := Header(w, name, size);
            && h[..100] == name + Blank(100 - |name|)
            && h[124..136] == SizeField(w, size)
            && h[156] == 48 && h[257..263] == USTAR && h[263..265] == VERSION
            && h[345..500] == Blank(155)
  {
    var h, u := Header(w, name, size), Unsummed(w, name, size);
    HeaderKeeps(w, name, size);
    UnsummedText(w, name, size);
    UnsummedConstants(w, name, size);
    SameSlice(h, u, 0, 100);
    SameSlice(h, u, 124, 136);
    SameSlice(h, u, 156, 157);
    SameSlice(h, u, 257, 263);
    SameSlice(h, u, 263, 265);
    SameSlice(h, u, 345, 500);
    assert h[156..157][0] == u[156..157][0];
  }

  /** Both checksum layouts are valid in every header. */
  lemma ChecksumIsValid(w: Writer, name: seq<Byte>, size: nat)
    requires |name| <= 100
    ensures ValidHeader(Header(w, name, size))
  {
    var h := Header(w, name, size);
    var u := Unsummed(w, name, size);
    hide Header, Unsummed, ChecksumField, SumBytes, Checksum;
    HeaderFields(w, name, size);
    HeaderKeeps(w, name, size);
    UnsummedConstants(w, name, size);
    ChecksumFieldReadsBack(w, u);
    SpacesAreSummed(h, u, 512);
    assert u[..512] == u;
  }

  /** The writers sum the header with spaces in the checksum field. */
  lemma {:induction false} SpacesAreSummed(h: seq<Byte>, u: seq<Byte>, n: nat)
    requires n <= |h| == |u| == 512 && u[148..156] == SPACES
    requires forall i :: 0 <= i < 148 || 156 <= i < 512 ==> h[i] == u[i]
    ensures SumBytes(u[..n]) == Checksum(h, n)
  {
    if n > 0 {
      SpacesAreSummed(h, u, n - 1);
      assert u[..n][..n - 1] == u[..n - 1];
      if 148 <= n - 1 < 156 {
        assert u[148..156][n - 149] == 32;
      }
    }
  }

  predicate NoNul(s: seq<Byte>) {
    0 !in s
  }

  lemma {:induction false} NameReadsBack(name: seq<Byte>, n: nat)
    requires NoNul(name)
    ensures UpToNul(name + Blank(n)) == name
  {
    if name == [] {
      assert [] + Blank(n) == Blank(n);
    } else {
      assert (name + Blank(n))[1..] == name[1..] + Blank(n);
      NameReadsBack(name[1..], n);
    }
  }

  /** The path and size that a reader finds in a header. The size is read back if and only if
      it is below 8 to the power 11. */
  lemma HeaderReadsBack(w: Writer, name: seq<Byte>, size: nat)
    requires |name| <= 100 && NoNul(name)
    ensures PathOf(Header(w, name, size)) == name
    ensures ReadOctal(Header(w, name, size)[124..136]) == Some(size) <==> size < Pow8(11)
    ensures !IsBlank(Header(w, name, size)) && Header(w, name, size)[156] == 48
  {
    HeaderFields(w, name, size);
    NameReadsBack(name, 100 - |name|);
    NameReadsBack([], 155);
    assert [] + Blank(155) == Blank(155);
    hide Header, SizeField, ReadOctal;
    SizeReadsBackWhen(w, size);
  }

  /** Mode 0644 in octal, no owner, no group and no time. */
  lemma ModeReadsBack(w: Writer, name: seq<Byte>, size: nat)
    requires |name| <= 100
    ensures var h := Header(w, name, size);
            && ReadOctal(h[100..108]) == Some(6 * 64 + 4 * 8 + 4)
            && ReadOctal(h[108..116]) == Some(0) && ReadOctal(h[116..124]) == Some(0)
            && ReadOctal(h[136..148]) == Some(0)
  {
    var h, u := Header(w, name, size), Unsummed(w, name, size);
    HeaderKeeps(w, name, size);
    forall i: nat | 100 <= i < 148
      ensures i < 108 ==> h[i] == MODE[i - 100]
      ensures 108 <= i < 116 ==> h[i] == ZERO_8[i - 108]
      ensures 116 <= i < 124 ==> h[i] == ZERO_8[i - 116]
      ensures 136 <= i ==> h[i] == ZERO_12[i - 136]
    {
      UnsummedBytes(w, name, size, i);
      hide Unsummed, Header;
    }
    assert h[100..108] == MODE && h[108..116] == ZERO_8 && h[116..124] == ZERO_8 && h[136..148] == ZERO_12;
    ModeFieldsReadBack();
    hide Unsummed, Header, ReadOctal;
  }

  lemma ModeFieldsReadBack()
    ensures ReadOctal(MODE) == Some(6 * 64 + 4 * 8 + 4)
    ensures ReadOctal(ZERO_8) == Some(0) && ReadOctal(ZERO_12) == Some(0)
  {
    hide ReadOctal;
    OctalConstants();
    PowersOf8();
    OctalFieldReadsBackWhen(420, 8);
    OctalFieldReadsBackWhen(0, 8);
    OctalFieldReadsBackWhen(0, 12);
  }

  lemma PowersOf8()
    ensures Pow8(7) > 420 && Pow8(11) > 0
  {
    assert Pow8(2) == 64 && Pow8(4) == 4096 && Pow8(7) == 512 * Pow8(4);
  }

  lemma SizeReadsBackWhen(w: Writer, size: nat)
    ensures ReadOctal(SizeField(w, size)) == Some(size) <==> size < Pow8(11)
  {
    OctalFieldReadsBackWhen(size, 12);
    CutFieldReadsBackWhen(size);
    hide ReadOctal, OctalField, CutField;
  }

  // ---- Round trip ----

  /** What an archive is able to hold, as the writer stores it. */
  predicate Readable(w: Writer, file: File) {
    Storable(w, file) && NoNul(StoredName(w, file.name)) && |file.content| < Pow8(11)
  }

  function Stored(w: Writer, files: seq<File>): seq<File> {
    if files == [] then []
    else [File(StoredName(w, files[0].name), files[0].content)] + Stored(w, files[1..])
  }

  lemma Slices(h: seq<Byte>, content: seq<Byte>, padding: seq<Byte>, rest: seq<Byte>)
    ensures var bytes := h + content + padding + rest;
            && bytes[..|h|] == h
            && bytes[|h|..|h| + |content|] == content
            && bytes[|h| + |content| + |padding|..] == rest
  {}

  /** Every entry fills whole blocks of 512 bytes: one for the header, and as many as the content
      needs, the last of them filled up with zeros. */
  lemma EntryFillsBlocks(w: Writer, file: File)
    requires Storable(w, file)
    ensures var e, size := Entry(w, file), |file.content|;
            && |e| == 512 * (1 + (size + 511) / 512)
            && e[512..512 + size] == file.content
            && forall i :: 512 + size <= i < |e| ==> e[i] == 0
  {
    var size := |file.content|;
    assert PaddingLength(size) == (size + 511) / 512 * 512 - size;
    var h := Header(w, StoredName(w, file.name), size);
    Slices(h, file.content, Blank(PaddingLength(size)), []);
    hide Header, StoredName, PaddingLength;
  }

  lemma ReadEntry(w: Writer, file: File, rest: seq<Byte>)
    requires Readable(w, file)
    ensures Read(Entry(w, file) + rest) ==
            if Read(rest).None? then None
            else Some([File(StoredName(w, file.name), file.content)] + Read(rest).value)
  {
    var name := StoredName(w, file.name);
    var h := Header(w, name, |file.content|);
    hide Header, PathOf, StoredName, ReadOctal, PaddingLength;
    HeaderReadsBack(w, name, |file.content|);
    ChecksumIsValid(w, name, |file.content|);
    EntryFillsBlocks(w, file);
    Slices(h, file.content, Blank(PaddingLength(|file.content|)), rest);
    hide ValidHeader, IsBlank;
  }

  /** Reading an archive gives back exactly the files put in, in order, under the names that
      the writer stores. */
  lemma {:induction false} ArchiveReadsBack(w: Writer, files: seq<File>)
    requires forall i :: 0 <= i < |files| ==> Readable(w, files[i])
    ensures AllStorable(w, files) && Read(Archive(w, files)) == Some(Stored(w, files))
  {
    if files == [] {
      assert Blank(2 * BLOCK)[..BLOCK] == Blank(BLOCK);
    } else {
      assert Readable(w, files[0]);
      ArchiveReadsBack(w, files[1..]);
      ReadEntry(w, files[0], Archive(w, files[1..]));
    }
  }

  lemma {:induction false} StoredIsSame(w: Writer, files: seq<File>)
    requires forall i :: 0 <= i < |files| ==> StoredName(w, files[i].name) == files[i].name
    ensures Stored(w, files) == files
  {
    if files != [] {
      StoredIsSame(w, files[1..]);
    }
  }

  /** A name survives the bundle writer if and only if it holds no backslash, and the plugin
      writer if and only if it has at most 100 bytes. */
  lemma NameSurvivesWhen(name: seq<Byte>)
    ensures StoredName(Bundle, name) == name <==> 92 !in name
    ensures StoredName(Plugin, name) == name <==> |name| <= 100
    ensures |StoredName(Bundle, name)| == |name|
    ensures forall i :: 0 <= i < |name| ==> StoredName(Bundle, name)[i] == if name[i] == 92 then 47 else name[i]
    ensures |name| > 100 ==> StoredName(Plugin, name) == name[..100]
  {
    if StoredName(Bundle, name) == name {
      forall i | 0 <= i < |name|
        ensures name[i] != 92
      {
        assert Slashes(name)[i] == name[i];
      }
    }
  }

  /** The round trip: an archive of files with names of at most 100 bytes, without NUL, and
      without a backslash in the case of the bundle, reads back as the very list of files. */
  lemma RoundTrip(w: Writer, files: seq<File>)
    requires forall i :: 0 <= i < |files| ==>
               && |files[i].name| <= 100 && NoNul(files[i].name) && |files[i].content| < Pow8(11)
               && (w == Bundle ==> 92 !in files[i].name)
    ensures AllStorable(w, files) && Read(Archive(w, files)) == Some(files)
  {
    forall i | 0 <= i < |files|
      ensures StoredName(w, files[i].name) == files[i].name && Readable(w, files[i])
    {
      NameSurvivesWhen(files[i].name);
    }
    ArchiveReadsBack(w, files);
    StoredIsSame(w, files);
  }
}
