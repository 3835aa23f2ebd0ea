/** Archives as a reader sees them, after the ustar Interchange Format section of the pax utility
    (IEEE Std 1003.1). Nothing here is shared with the writers, but for what a file is. */
module TarFormat {
  import opened Common
  import opened Octal

  datatype File = File(name: seq<Byte>, content: seq<Byte>)

  /** Bytes up to the first NUL. */
  function UpToNul(s: seq<Byte>): seq<Byte> {
    if s == [] || s[0] == 0 then [] else [s[0]] + UpToNul(s[1..])
  }

  /** The sum of the first `n` bytes of a header, its checksum field counted as spaces. */
  function Checksum(h: seq<Byte>, n: nat): nat
    requires n <= |h|
  {
    if n == 0 then 0 else Checksum(h, n - 1) + if 148 <= n - 1 < 156 then 32 else h[n - 1]
  }

  /** "ustar", a NUL, "00", and the checksum. */
  predicate ValidHeader(h: seq<Byte>) {
    && |h| == 512
    && h[257..263] == [117, 115, 116, 97, 114, 0] && h[263..265] == [48, 48]
    && ReadOctal(h[148..156]) == Some(Checksum(h, 512))
  }

  /** The path: the prefix field, when it is used, comes before the name. */
  function PathOf(h: seq<Byte>): seq<Byte>
    requires |h| == 512
  {
    var prefix := UpToNul(h[345..500]);
    var name := UpToNul(h[..100]);
    if prefix == [] then name else prefix + [47] + name
  }

  predicate IsBlank(s: seq<Byte>) {
    forall i :: 0 <= i < |s| ==> s[i] == 0
  }

  /** Where the next header begins: content fills whole blocks. */
  function EndOf(size: nat): nat {
    512 * (1 + (size + 511) / 512)
  }

  /** Reads entries until two blank blocks; None for anything that is not such an archive of
      regular files. */
  function Read(bytes: seq<Byte>): Option<seq<File>> {
    if |bytes| < 512 then None
    else
      var h := bytes[..512];
      if IsBlank(h) then
        if |bytes| >= 1024 && IsBlank(bytes[512..1024]) then Some([]) else None
      else if !ValidHeader(h) || h[156] != 48 then None
      else
        var size := ReadOctal(h[124..136]);
        if size.None? || size.value < 0 || |bytes| < EndOf(size.value) then None
        else
          var rest := Read(bytes[EndOf(size.value)..]);
          if rest.None? then None
          else Some([File(PathOf(h), bytes[512..512 + size.value])] + rest.value)
  }
}
