/** The two writers of ustar archives. */
module Ustar {
  import opened Common
  import opened Octal
  import opened TarFormat

  const BLOCK: nat := 512

  /** Which program writes: the deployment bundle script or the plugin example. */
  datatype Writer = Bundle | Plugin

  const USTAR: seq<Byte> := [117, 115, 116, 97, 114, 0]
  const VERSION: seq<Byte> := [48, 48]
  const MODE: seq<Byte> := [48, 48, 48, 48, 54, 52, 52, 0]
  const ZERO_8: seq<Byte> := [48, 48, 48, 48, 48, 48, 48, 0]
  const ZERO_12: seq<Byte> := [48, 48, 48, 48, 48, 48, 48, 48, 48, 48, 48, 0]
  const SPACES: seq<Byte> := [32, 32, 32, 32, 32, 32, 32, 32]

  function Blank(n: nat): (z: seq<Byte>)
    ensures |z| == n
  {
    seq(n, _ => 0)
  }

  function Write(h: seq<Byte>, offset: nat, bytes: seq<Byte>): (w: seq<Byte>)
    requires offset + |bytes| <= |h|
    ensures |w| == |h|
    ensures forall i :: 0 <= i < |h| ==> w[i] == if offset <= i < offset + |bytes| then bytes[i - offset] else h[i]
  {
    h[..offset] + bytes + h[offset + |bytes|..]
  }

  function SumBytes(s: seq<Byte>): nat {
    if s == [] then 0 else SumBytes(s[..|s| - 1]) + s[|s| - 1]
  }

  /** Backslashes become slashes. */
  function Slashes(name: seq<Byte>): seq<Byte> {
    seq(|name|, i requires 0 <= i < |name| => if name[i] == 92 then 47 else name[i])
  }

  // ---- The header that is written ----

  function SizeField(w: Writer, size: nat): (f: seq<Byte>)
    ensures |f| == 12
  {
    OctalFieldReadsBackWhen(size, 12);
    CutFieldReadsBackWhen(size);
    match w
    case Bundle => OctalField(size, 12)
    case Plugin => CutField(size)
  }

  /** The header with spaces in place of its checksum. */
  function Unsummed(w: Writer, name: seq<Byte>, size: nat): (h: seq<Byte>)
    requires |name| <= 100
    ensures |h| == BLOCK
  {
    var named := Write(Blank(BLOCK), 0, name);
    var owned := Write(Write(Write(named, 100, MODE), 108, ZERO_8), 116, ZERO_8);
    var sized := Write(Write(owned, 124, SizeField(w, size)), 136, ZERO_12);
    Write(Write(Write(Write(sized, 148, SPACES), 156, [48]), 257, USTAR), 263, VERSION)
  }

  function ChecksumField(w: Writer, sum: nat): seq<Byte> {
    match w
    case Bundle => OctalField(sum, 8)
    case Plugin => PadStart(Digits(sum), 6) + [0, 32]
  }

  lemma {:induction false} SumIsBounded(s: seq<Byte>)
    ensures SumBytes(s) <= 255 * |s|
  {
    if s != [] {
      SumIsBounded(s[..|s| - 1]);
    }
  }

  lemma {:induction false} SumOfJoin(a: seq<Byte>, b: seq<Byte>)
    ensures SumBytes(a + b) == SumBytes(a) + SumBytes(b)
  {
    if b == [] {
      assert a + b == a;
    } else {
      assert (a + b)[..|a + b| - 1] == a + b[..|b| - 1];
      SumOfJoin(a, b[..|b| - 1]);
    }
  }

  /** Sums of 512 bytes fit both checksum layouts. */
  lemma ChecksumFieldReadsBack(w: Writer, h: seq<Byte>)
    requires |h| == BLOCK
    ensures |ChecksumField(w, SumBytes(h))| == 8
    ensures ReadOctal(ChecksumField(w, SumBytes(h))) == Some(SumBytes(h))
  {
    SumIsBounded(h);
    assert Pow8(6) == 8 * 8 * 8 * 8 * 8 * 8 && Pow8(7) == 8 * Pow8(6) by {
      assert Pow8(2) == 64 && Pow8(4) == 64 * Pow8(2);
    }
    OctalFieldReadsBackWhen(SumBytes(h), 8);
    SixDigitsReadBack(SumBytes(h));
  }

  function Header(w: Writer, name: seq<Byte>, size: nat): (h: seq<Byte>)
    requires |name| <= 100
    ensures |h| == BLOCK
  {
    var unsummed := Unsummed(w, name, size);
    ChecksumFieldReadsBack(w, unsummed);
    Write(unsummed, 148, ChecksumField(w, SumBytes(unsummed)))
  }

  function PaddingLength(size: nat): nat {
    (BLOCK - size % BLOCK) % BLOCK
  }

  /** The name as it reaches the header: the plugin writer cuts it at 100 bytes. */
  function StoredName(w: Writer, name: seq<Byte>): seq<Byte> {
    match w
    case Bundle => Slashes(name)
    case Plugin => name[..Min(100, |name|)]
  }

  /** Writers refuse nothing else: the bundle script throws on a name that is too long. */
  predicate Storable(w: Writer, file: File) {
    |StoredName(w, file.name)| <= 100
  }

  function Entry(w: Writer, file: File): seq<Byte>
    requires Storable(w, file)
  {
    Header(w, StoredName(w, file.name), |file.content|) + file.content + Blank(PaddingLength(|file.content|))
  }

  predicate AllStorable(w: Writer, files: seq<File>) {
    forall i :: 0 <= i < |files| ==> Storable(w, files[i])
  }

  function Archive(w: Writer, files: seq<File>): seq<Byte>
    requires AllStorable(w, files)
  {
    if files == [] then Blank(2 * BLOCK) else
    assert Storable(w, files[0]);
    Entry(w, files[0]) + Archive(w, files[1..])
  }

  // ---- The writers ----

  method PutBytes(header: array<Byte>, offset: nat, bytes: seq<Byte>)
    requires offset + |bytes| <= header.Length
    modifies header
    ensures header[..] == Write(old(header[..]), offset, bytes)
  {
    for i := 0 to |bytes|
      invariant forall k :: 0 <= k < header.Length ==>
                  header[k] == if offset <= k < offset + i then bytes[k - offset] else old(header[k])
    {
      header[offset + i] := bytes[i];
    }
  }

  method WriteOctal(buffer: array<Byte>, offset: nat, length: nat, value: nat)
    requires 2 <= length && offset + length <= buffer.Length
    modifies buffer
    ensures |OctalField(value, length)| == length
    ensures buffer[..] == Write(old(buffer[..]), offset, OctalField(value, length))
  {
    OctalFieldReadsBackWhen(value, length);
    var encoded := PadStart(Digits(value), length - 1);
    PutBytes(buffer, offset, encoded[..length - 1]);
    buffer[offset + length - 1] := 0;
  }

  method Total(header: array<Byte>) returns (sum: nat)
    ensures sum == SumBytes(header[..])
  {
    sum := 0;
    for i := 0 to header.Length
      invariant sum == SumBytes(header[..i])
    {
      assert header[..i + 1][..i] == header[..i];
      sum := sum + header[i];
    }
    assert header[..header.Length] == header[..];
  }

  lemma OctalConstants()
    ensures OctalField(420, 8) == MODE && OctalField(0, 8) == ZERO_8 && OctalField(0, 12) == ZERO_12
  {
    assert Digits(420) == Digits(52) + [52] && Digits(52) == Digits(6) + [52] && Digits(6) == [54];
    assert Digits(420) == [54, 52, 52];
    assert PadStart(Digits(420), 7) == [48, 48, 48, 48, 54, 52, 52];
    assert PadStart(Digits(0), 7) == [48, 48, 48, 48, 48, 48, 48];
    assert PadStart(Digits(0), 11) == [48, 48, 48, 48, 48, 48, 48, 48, 48, 48, 48];
  }

  datatype Error = PathTooLong

  /** tarEntry of the deployment bundle. */
  method TarEntry(name: seq<Byte>, content: seq<Byte>) returns (r: Result<seq<Byte>, Error>)
    ensures |name| > 100 ==> r == Err(PathTooLong)
    ensures |name| <= 100 ==> Storable(Bundle, File(name, content)) && r == Ok(Entry(Bundle, File(name, content)))
  {
    if |name| > 100 {
      return Err(PathTooLong);
    }
    var header := new Byte[BLOCK](_ => 0);
    assert header[..] == Blank(BLOCK);
    OctalConstants();
    PutBytes(header, 0, Slashes(name));
    WriteOctal(header, 100, 8, 420);
    WriteOctal(header, 108, 8, 0);
    WriteOctal(header, 116, 8, 0);
    WriteOctal(header, 124, 12, |content|);
    WriteOctal(header, 136, 12, 0);
    PutBytes(header, 148, SPACES);
    PutBytes(header, 156, [48]);
    PutBytes(header, 257, USTAR);
    PutBytes(header, 263, VERSION);
    assert header[..] == Unsummed(Bundle, Slashes(name), |content|);
    var sum := Total(header);
    WriteOctal(header, 148, 8, sum);
    r := Ok(header[..] + content + Blank(PaddingLength(|content|)));
  }

  /** The header of the plugin archive. */
  method PluginHeader(path: seq<Byte>, size: nat) returns (header: array<Byte>)
    ensures fresh(header) && Storable(Plugin, File(path, []))
    ensures header[..] == Header(Plugin, StoredName(Plugin, path), size)
  {
    header := new Byte[BLOCK](_ => 0);
    assert header[..] == Blank(BLOCK);
    PutBytes(header, 0, path[..Min(100, |path|)]);
    PutBytes(header, 100, MODE);
    PutBytes(header, 108, ZERO_8);
    PutBytes(header, 116, ZERO_8);
    PutBytes(header, 124, SizeField(Plugin, size));
    PutBytes(header, 136, ZERO_12);
    PutBytes(header, 148, SPACES);
    PutBytes(header, 156, [48]);
    PutBytes(header, 257, USTAR);
    PutBytes(header, 263, VERSION);
    assert header[..] == Unsummed(Plugin, StoredName(Plugin, path), size);
    var checksum := Total(header);
    ChecksumFieldReadsBack(Plugin, header[..]);
    PutBytes(header, 148, ChecksumField(Plugin, checksum));
  }

  function Concat(blocks: seq<seq<Byte>>): seq<Byte> {
    if blocks == [] then [] else blocks[0] + Concat(blocks[1..])
  }

  lemma {:induction false} ConcatAppend(blocks: seq<seq<Byte>>, more: seq<seq<Byte>>)
    ensures Concat(blocks + more) == Concat(blocks) + Concat(more)
  {
    if blocks == [] {
      assert blocks + more == more;
    } else {
      assert (blocks + more)[1..] == blocks[1..] + more;
      ConcatAppend(blocks[1..], more);
    }
  }

  lemma ConcatOne(a: seq<Byte>)
    ensures Concat([a]) == a
  {
    assert [a][1..] == [];
  }

  lemma ConcatThree(a: seq<Byte>, b: seq<Byte>, c: seq<Byte>)
    ensures Concat([a, b, c]) == a + b + c
  {
    assert [a, b, c][1..] == [b, c] && [b, c][1..] == [c];
    ConcatOne(c);
    assert a + (b + c) == a + b + c;
  }

  lemma ConcatJoins(first: seq<Byte>, middle: seq<seq<Byte>>, last: seq<Byte>)
    ensures Concat([first] + middle + [last]) == first + (Concat(middle) + last)
  {
    ConcatAppend([first] + middle, [last]);
    ConcatAppend([first], middle);
    ConcatOne(first);
    ConcatOne(last);
  }

  lemma ArchiveStep(w: Writer, files: seq<File>, i: nat, front: seq<Byte>)
    requires AllStorable(w, files) && i < |files|
    ensures AllStorable(w, files[i..]) && AllStorable(w, files[i + 1..])
    ensures front + Archive(w, files[i..]) == front + Entry(w, files[i]) + Archive(w, files[i + 1..])
  {
    hide Entry;
    assert files[i..][1..] == files[i + 1..];
    assert Archive(w, files[i..]) == Entry(w, files[i]) + Archive(w, files[i + 1..]);
    hide Archive;
    JoinsInAnyOrder(front, Entry(w, files[i]), Archive(w, files[i + 1..]));
  }

  lemma JoinsInAnyOrder(a: seq<Byte>, b: seq<Byte>, c: seq<Byte>)
    ensures a + (b + c) == a + b + c
  {}

  /** Copies the blocks one after the other into one array. */
  method CopyBlocks(blocks: seq<seq<Byte>>) returns (tar: array<Byte>)
    ensures fresh(tar) && tar[..] == Concat(blocks)
  {
    var total := 0;
    for i := 0 to |blocks|
      invariant total == |Concat(blocks[..i])|
    {
      assert blocks[..i + 1] == blocks[..i] + [blocks[i]];
      ConcatAppend(blocks[..i], [blocks[i]]);
      ConcatOne(blocks[i]);
      total := total + |blocks[i]|;
    }
    assert blocks[..|blocks|] == blocks;
    tar := new Byte[total](_ => 0);
    var offset := 0;
    for i := 0 to |blocks|
      invariant offset == |Concat(blocks[..i])| && offset + |Concat(blocks[i..])| == total == tar.Length
      invariant tar[..offset] == Concat(blocks[..i])
    {
      assert blocks[..i + 1] == blocks[..i] + [blocks[i]] && blocks[i..] == [blocks[i]] + blocks[i + 1..];
      ConcatAppend(blocks[..i], [blocks[i]]);
      ConcatAppend([blocks[i]], blocks[i + 1..]);
      ConcatOne(blocks[i]);
      PutBytes(tar, offset, blocks[i]);
      offset := offset + |blocks[i]|;
    }
    assert blocks[|blocks|..] == [];
  }

  /** The archive of the plugin example, before compression. */
  method PluginTar(files: seq<File>) returns (tar: array<Byte>)
    ensures AllStorable(Plugin, files) && tar[..] == Archive(Plugin, files)
  {
    var blocks: seq<seq<Byte>> := [];
    assert files[0..] == files;
    assert Archive(Plugin, []) == Blank(2 * BLOCK);
    hide Archive, Header;
    for i := 0 to |files|
      invariant Concat(blocks) + Archive(Plugin, files[i..]) == Archive(Plugin, files)
    {
      var header := PluginHeader(files[i].name, |files[i].content|);
      var three := [header[..], files[i].content, Blank(PaddingLength(|files[i].content|))];
      ArchiveStep(Plugin, files, i, Concat(blocks));
      ConcatAppend(blocks, three);
      ConcatThree(three[0], three[1], three[2]);
      blocks := blocks + three;
    }
    assert files[|files|..] == [];
    ConcatAppend(blocks, [Blank(2 * BLOCK)]);
    ConcatOne(Blank(2 * BLOCK));
    blocks := blocks + [Blank(2 * BLOCK)];
    tar := CopyBlocks(blocks);
  }

  const MANIFEST_NAME: seq<Byte> :=
    [98, 117, 110, 100, 108, 101, 45, 109, 97, 110, 105, 102, 101, 115, 116, 46, 106, 115, 111, 110]

  /** The loop over the files of the deployment bundle. */
  method FileEntries(files: seq<File>) returns (r: Result<seq<seq<Byte>>, Error>)
    ensures r.Ok? <==> AllStorable(Bundle, files)
    ensures r.Ok? ==> Concat(r.value) + Blank(2 * BLOCK) == Archive(Bundle, files)
  {
    var entries: seq<seq<Byte>> := [];
    NoEntries(files);
    hide Archive, Entry, Concat;
    for i := 0 to |files|
      invariant forall k :: 0 <= k < i ==> Storable(Bundle, files[k])
      invariant AreEntries(entries, files, i)
    {
      var entry := TarEntry(files[i].name, files[i].content);
      if entry.Err? {
        assert !Storable(Bundle, files[i]);
        return Err(PathTooLong);
      }
      OneMoreEntry(entries, files, i);
      hide AreEntries;
      entries := entries + [entry.value];
    }
    AllEntries(entries, files);
    r := Ok(entries);
  }

  /** The blocks hold the first `i` files, if all can be stored. */
  ghost predicate AreEntries(entries: seq<seq<Byte>>, files: seq<File>, i: nat)
    requires i <= |files|
  {
    AllStorable(Bundle, files) ==> Concat(entries) + Archive(Bundle, files[i..]) == Archive(Bundle, files)
  }

  lemma NoEntries(files: seq<File>)
    ensures AreEntries([], files, 0)
  {
    assert files[0..] == files;
    hide Archive;
  }

  lemma OneMoreEntry(entries: seq<seq<Byte>>, files: seq<File>, i: nat)
    requires i < |files| && AreEntries(entries, files, i) && Storable(Bundle, files[i])
    ensures AreEntries(entries + [Entry(Bundle, files[i])], files, i + 1)
  {
    hide Archive, Entry, Concat;
    var entry := Entry(Bundle, files[i]);
    ConcatAppend(entries, [entry]);
    ConcatOne(entry);
    if AllStorable(Bundle, files) {
      ArchiveStep(Bundle, files, i, Concat(entries));
    }
  }

  lemma AllEntries(entries: seq<seq<Byte>>, files: seq<File>)
    requires AreEntries(entries, files, |files|)
    ensures AllStorable(Bundle, files) ==> Concat(entries) + Blank(2 * BLOCK) == Archive(Bundle, files)
  {
    assert files[|files|..] == [];
    assert Archive(Bundle, []) == Blank(2 * BLOCK);
    hide Archive, Concat;
  }

  /** The deployment bundle, before compression: the manifest, whose content is given here,
      goes to the front once all files have been added. */
  method BundleArchive(files: seq<File>, manifest: seq<Byte>) returns (r: Result<seq<Byte>, Error>)
    ensures r.Ok? <==> forall i :: 0 <= i < |files| ==> |files[i].name| <= 100
    ensures r.Ok? ==>
              var all := [File(MANIFEST_NAME, manifest)] + files;
              AllStorable(Bundle, all) && r == Ok(Archive(Bundle, all))
  {
    var entries := FileEntries(files);
    StorableNames(files);
    if entries.Err? {
      return Err(PathTooLong);
    }
    var first := TarEntry(MANIFEST_NAME, manifest);
    ghost var all := [File(MANIFEST_NAME, manifest)] + files;
    assert all[1..] == files;
    ConcatJoins(first.value, entries.value, Blank(2 * BLOCK));
    r := Ok(Concat([first.value] + entries.value + [Blank(2 * BLOCK)]));
  }

  lemma StorableNames(files: seq<File>)
    ensures AllStorable(Bundle, files) <==> forall i :: 0 <= i < |files| ==> |files[i].name| <= 100
  {
    if AllStorable(Bundle, files) {
      forall i | 0 <= i < |files|
        ensures |files[i].name| <= 100
      {
        assert Storable(Bundle, files[i]);
      }
    }
  }
}
