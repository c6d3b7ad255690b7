/** ustar archive headers: composing one, parsing one, and that the two undo each other. */
module Ustar {
  import opened Common
  import opened Arithmetic
  import opened Stdio

  const HEADER_SIZE := 512
  const NAME_SIZE := 100
  const CHKSUM_OFS := 148
  const TYPE_OFS := 156
  const SIZE_OFS := 124
  const MAGIC_OFS := 257
  const VERSION_OFS := 263
  const PREFIX_OFS := 345
  const INT_MAX := 0x7fff_ffff
  const ULONG_MAX := 0xffff_ffff
  const NUL := '\0'

  datatype FileType = Regular | Directory

  datatype Parsed =
    | EndOfArchive
    | Entry(name: string, fileType: FileType, size: nat)
    | Error(message: string)

  /** A file name is a C string: it has no null character in it. */
  predicate CString(s: string) {
    forall i :: 0 <= i < |s| ==> s[i] != NUL
  }

  // ---------- prefixes ----------

  predicate Antisocial(s: string) {
    || (|s| >= 1 && s[0] == '/')
    || (|s| >= 2 && s[0] == '.' && s[1] == '/')
    || (|s| >= 3 && s[0] == '.' && s[1] == '.' && s[2] == '/')
  }

  /** What follows the first slash. */
  function AfterSlash(s: string): (r: string)
    requires '/' in s
    ensures |r| < |s|
  {
    if s[0] == '/' then s[1..] else AfterSlash(s[1..])
  }

  function Strip(s: string): string
    decreases |s|
  {
    if Antisocial(s) then
      Strip(AfterSlash(s))
    else if s == "" || s == ".." then "." else s
  }

  /** What is left begins with no such prefix, names something, and is left as it is by
      stripping again. */
  lemma {:induction false} StripIsIdempotent(s: string)
    ensures Tame(Strip(s)) && Strip(Strip(s)) == Strip(s)
    decreases |s|
  {
    if Antisocial(s) {
      StripIsIdempotent(AfterSlash(s));
    } else {
      assert !Antisocial(".");
      TameStays(".");
      if s != "" && s != ".." {
        TameStays(s);
      }
    }
  }

  predicate Tame(s: string) {
    !Antisocial(s) && s != "" && s != ".."
  }

  lemma TameStays(s: string)
    requires Tame(s)
    ensures Strip(s) == s
  {
  }

  lemma {:induction false} StripKeepsCString(s: string)
    requires CString(s)
    ensures CString(Strip(s))
    decreases |s|
  {
    if Antisocial(s) {
      AfterSlashCString(s);
      StripKeepsCString(AfterSlash(s));
    }
  }

  lemma {:induction false} AfterSlashCString(s: string)
    requires CString(s) && '/' in s
    ensures CString(AfterSlash(s))
  {
    if s[0] != '/' {
      AfterSlashCString(s[1..]);
    }
  }

  // ---------- headers ----------

  /** s is written at ofs. */
  function Patch(h: string, ofs: nat, s: string): (r: string)
    requires ofs + |s| <= |h|
    ensures |r| == |h|
    ensures forall k :: 0 <= k < |h| ==> r[k] == if ofs <= k < ofs + |s| then s[k - ofs] else h[k]
  {
    h[..ofs] + s + h[ofs + |s|..]
  }

  /** calculate_chksum: bytes 0 to i, the checksum field read as spaces. */
  function Checksum(h: string, i: nat): (sum: nat)
    requires i <= |h| == HEADER_SIZE
    ensures sum <= 255 * i
  {
    if i == 0 then 0
    else Checksum(h, i - 1) + (if CHKSUM_OFS <= i - 1 < CHKSUM_OFS + 8 then ' ' as int else h[i - 1] as int % 256)
  }

  /** The checksum ignores its own field. */
  lemma {:induction false} ChecksumIgnoresItself(h: string, g: string, i: nat)
    requires i <= |h| == |g| == HEADER_SIZE
    requires forall k :: 0 <= k < HEADER_SIZE && !(CHKSUM_OFS <= k < CHKSUM_OFS + 8) ==> h[k] == g[k]
    ensures Checksum(h, i) == Checksum(g, i)
  {
    if i > 0 {
      ChecksumIgnoresItself(h, g, i - 1);
    }
  }

  function TypeFlag(t: FileType): char { if t.Regular? then '0' else '5' }

  /** The size as the program prints it: an int read as an unsigned word. */
  function SizeField(size: I32): string { Octal(ToU32(size), 11) }

  /** A field of octal digits and a null character. */
  function Field(s: string): string { s + [NUL] }

  function Mode(t: FileType): string { Octal(if t.Regular? then 0x1A4 else 0x1ED, 7) }

  const MTIME := 1136102400

  /** The header up to the modification time. */
  function FirstFields(name: string, t: FileType, size: I32): (h: string)
    requires |name| < NAME_SIZE
    ensures |h| == HEADER_SIZE
  {
    FieldsFill(t, size);
    var h0 := seq(HEADER_SIZE, _ => NUL);
    var h1 := Patch(h0, 0, Field(name));
    var h2 := Patch(h1, 100, Field(Mode(t)));
    var h3 := Patch(h2, 108, Field("0000000"));
    var h4 := Patch(h3, 116, Field("0000000"));
    var h5 := Patch(h4, SIZE_OFS, Field(SizeField(size)));
    Patch(h5, 136, Field(Octal(MTIME, 11)))
  }

  /** The fields after the checksum. */
  function LastFields(h: string, t: FileType): (r: string)
    requires |h| == HEADER_SIZE
    ensures |r| == HEADER_SIZE
  {
    var h7 := Patch(h, TYPE_OFS, [TypeFlag(t)]);
    var h8 := Patch(h7, MAGIC_OFS, Field("ustar"));
    var h9 := Patch(h8, VERSION_OFS, "00");
    var h10 := Patch(h9, 297, Field("root"));
    Patch(h10, 265, Field("root"))
  }

  /** The header but for the checksum. */
  function Unsummed(name: string, t: FileType, size: I32): (h: string)
    requires |name| < NAME_SIZE
    ensures |h| == HEADER_SIZE
  {
    LastFields(FirstFields(name, t, size), t)
  }

  lemma FieldsFill(t: FileType, size: I32)
    ensures |Mode(t)| == 7 && |SizeField(size)| == 11 && |Octal(MTIME, 11)| == 11
  {
    OctalFills(if t.Regular? then 0x1A4 else 0x1ED, 7);
    OctalFills(MTIME, 11);
    SizeFills(size);
  }

  lemma Powers8()
    ensures Pow8(7) == 0x20_0000 && Pow8(11) == 0x2_0000_0000
  {
  }

  lemma SizeFills(size: I32)
    ensures |SizeField(size)| == 11 && AllOctal(SizeField(size)) && Value(SizeField(size), 8) == ToU32(size)
  {
    Powers8();
    OctalFills(ToU32(size), 11);
  }

  lemma ChecksumFills(h: string)
    requires |h| == HEADER_SIZE
    ensures var s := Octal(Checksum(h, HEADER_SIZE), 7);
      |s| == 7 && AllOctal(s) && Value(s, 8) == Checksum(h, HEADER_SIZE)
  {
    Powers8();
    OctalFills(Checksum(h, HEADER_SIZE), 7);
  }

  /** What ustar_make_header stores for a name that is short enough. */
  function Header(name: string, t: FileType, size: I32): (h: string)
    requires |name| < NAME_SIZE
    ensures |h| == HEADER_SIZE
  {
    var h := Unsummed(name, t, size);
    ChecksumFills(h);
    Patch(h, CHKSUM_OFS, Field(Octal(Checksum(h, HEADER_SIZE), 7)))
  }

  /** ustar_make_header. */
  function Make(fileName: string, t: FileType, size: I32): Option<string> {
    var name := Strip(fileName);
    if |name| > 99 then None else Some(Header(name, t, size))
  }

  // ---------- parsing ----------

  /** parse_octal_field, from position ofs with the value so far. */
  function ParseOctal(s: string, ofs: nat, value: nat): Option<nat>
    requires ofs <= |s|
    decreases |s| - ofs
  {
    if ofs == |s| then None
    else if IsOctal(s[ofs]) then
      if value > ULONG_MAX / 8 then None
      else ParseOctal(s, ofs + 1, s[ofs] as int - '0' as int + value * 8)
    else if s[ofs] == ' ' || s[ofs] == NUL then
      if ofs > 0 then Some(value) else None
    else None
  }

  /** The C string at the start of s. */
  function UpToNul(s: string): string {
    if s == "" || s[0] == NUL then "" else [s[0]] + UpToNul(s[1..])
  }

  /** ustar_parse_header. */
  function Parse(h: string): Parsed
    requires |h| == HEADER_SIZE
  {
    if forall k :: 0 <= k < HEADER_SIZE ==> h[k] == NUL then EndOfArchive
    else if h[MAGIC_OFS..MAGIC_OFS + 6] != Field("ustar") then Error("not a ustar archive")
    else if h[VERSION_OFS] != '0' || h[VERSION_OFS + 1] != '0' then Error("invalid ustar version")
    else
      var chksum := ParseOctal(h[CHKSUM_OFS..CHKSUM_OFS + 8], 0, 0);
      if chksum.None? then Error("corrupt chksum field")
      else if chksum.value != Checksum(h, HEADER_SIZE) then Error("checksum mismatch")
      else if h[NAME_SIZE - 1] != NUL || h[PREFIX_OFS] != NUL then Error("file name too long")
      else if h[TYPE_OFS] != '0' && h[TYPE_OFS] != '5' then Error("unimplemented file type")
      else
        var name := Strip(UpToNul(h[..NAME_SIZE]));
        if h[TYPE_OFS] == '5' then Entry(name, Directory, 0)
        else
          var size := ParseOctal(h[SIZE_OFS..SIZE_OFS + 12], 0, 0);
          if size.None? then Error("corrupt file size field")
          else if size.value > INT_MAX then Error("file too large")
          else Entry(name, Regular, size.value)
  }

  lemma OctalStep(s: string, ofs: nat)
    requires AllOctal(s) && ofs < |s| && Value(s, 8) <= ULONG_MAX
    ensures Value(s[..ofs + 1], 8) == s[ofs] as int - '0' as int + Value(s[..ofs], 8) * 8
    ensures Value(s[..ofs], 8) <= ULONG_MAX / 8
  {
    assert s[..ofs + 1] == s[..ofs] + [s[ofs]];
    ValueSnoc(s[..ofs], s[ofs], 8);
    ValueGrows(s, ofs + 1);
    hide Value;
  }

  /** Reading digit by digit from the front gives the value of the digits, without overflow
      when the value is a word. */
  lemma {:induction false} ParsesBack(s: string, ofs: nat, value: nat)
    requires AllOctal(s) && |s| > 0 && ofs <= |s|
    requires value == Value(s[..ofs], 8) && Value(s, 8) <= ULONG_MAX
    ensures ParseOctal(Field(s), ofs, value) == Some(Value(s, 8))
    decreases |s| - ofs
  {
    hide Value;
    if ofs == |s| {
      assert s[..ofs] == s;
    } else {
      OctalStep(s, ofs);
      assert Field(s)[ofs] == s[ofs];
      ParsesBack(s, ofs + 1, Value(s[..ofs + 1], 8));
    }
  }

  lemma {:induction false} ValueGrows(s: string, n: nat)
    requires AllOctal(s) && n <= |s|
    ensures Value(s[..n], 8) <= Value(s, 8)
    decreases |s|
  {
    if n == |s| {
      assert s[..n] == s;
    } else {
      var front := s[..|s| - 1];
      assert front[..n] == s[..n];
      ValueGrows(front, n);
    }
  }

  lemma {:induction false} UpToNulIs(s: string, h: string)
    requires CString(s) && |s| < |h| && h[..|s|] == s && h[|s|] == NUL
    ensures UpToNul(h) == s
  {
    if s != "" {
      assert h[0] == s[0];
      UpToNulIs(s[1..], h[1..]);
    }
  }

  lemma FirstByte(name: string, t: FileType, size: I32, k: nat)
    requires |name| < NAME_SIZE && k < HEADER_SIZE && |SizeField(size)| == 11
    ensures var h := FirstFields(name, t, size);
      && (k < |name| ==> h[k] == name[k])
      && ((|name| <= k < NAME_SIZE || k >= CHKSUM_OFS) ==> h[k] == NUL)
      && (SIZE_OFS <= k < SIZE_OFS + 12 ==> h[k] == Field(SizeField(size))[k - SIZE_OFS])
  {
    FieldsFill(t, size);
    hide Patch, Octal, SizeField, Mode;
  }

  lemma LastByte(h: string, t: FileType, k: nat)
    requires |h| == HEADER_SIZE && k < HEADER_SIZE
    ensures var r := LastFields(h, t);
      && (k < CHKSUM_OFS || k == PREFIX_OFS ==> r[k] == h[k])
      && (k == TYPE_OFS ==> r[k] == TypeFlag(t))
      && (MAGIC_OFS <= k < MAGIC_OFS + 6 ==> r[k] == Field("ustar")[k - MAGIC_OFS])
      && (VERSION_OFS <= k < VERSION_OFS + 2 ==> r[k] == '0')
  {
  }

  /** Only the checksum is put in last. */
  lemma SummedIs(name: string, t: FileType, size: I32)
    requires |name| < NAME_SIZE
    ensures var u, h := Unsummed(name, t, size), Header(name, t, size);
      && |u| == |h| == HEADER_SIZE
      && (forall k :: 0 <= k < HEADER_SIZE && !(CHKSUM_OFS <= k < CHKSUM_OFS + 8) ==> h[k] == u[k])
      && h[CHKSUM_OFS..CHKSUM_OFS + 8] == Field(Octal(Checksum(u, HEADER_SIZE), 7))
  {
    hide Unsummed, Checksum, Octal;
    ChecksumFills(Unsummed(name, t, size));
  }

  lemma UnsummedByte(name: string, t: FileType, size: I32, k: nat)
    requires |name| < NAME_SIZE && k < HEADER_SIZE && |SizeField(size)| == 11
    ensures HeaderByte(name, t, size, Unsummed(name, t, size), k)
  {
    hide SizeField, FirstFields, LastFields;
    FirstByte(name, t, size, k);
    LastByte(FirstFields(name, t, size), t, k);
  }

  /** What the parser reads back from a header that was made. */
  lemma HeaderFields(name: string, t: FileType, size: I32)
    requires |name| < NAME_SIZE
    ensures var h := Header(name, t, size);
      && h[..|name|] == name && h[|name|] == NUL && h[NAME_SIZE - 1] == NUL && h[PREFIX_OFS] == NUL
      && h[SIZE_OFS..SIZE_OFS + 12] == Field(SizeField(size))
      && h[TYPE_OFS] == TypeFlag(t)
      && h[MAGIC_OFS..MAGIC_OFS + 6] == Field("ustar")
      && h[VERSION_OFS] == '0' && h[VERSION_OFS + 1] == '0'
      && h[CHKSUM_OFS..CHKSUM_OFS + 8] == Field(Octal(Checksum(h, HEADER_SIZE), 7))
  {
    hide Unsummed, LastFields, FirstFields, Checksum, Octal, SizeField, Header, HeaderByte;
    var u, h := Unsummed(name, t, size), Header(name, t, size);
    SizeFills(size);
    SummedIs(name, t, size);
    ChecksumIgnoresItself(u, h, HEADER_SIZE);
    forall k | 0 <= k < HEADER_SIZE
      ensures HeaderByte(name, t, size, u, k)
    {
      UnsummedByte(name, t, size, k);
    }
    SlicesOf(name, t, size, u, h);
  }

  ghost predicate HeaderByte(name: string, t: FileType, size: I32, h: string, k: nat)
    requires k < |h| && |SizeField(size)| == 11
  {
    && (k < |name| ==> h[k] == name[k])
    && ((|name| <= k < NAME_SIZE || k == PREFIX_OFS) ==> h[k] == NUL)
    && (SIZE_OFS <= k < SIZE_OFS + 12 ==> h[k] == Field(SizeField(size))[k - SIZE_OFS])
    && (k == TYPE_OFS ==> h[k] == TypeFlag(t))
    && (MAGIC_OFS <= k < MAGIC_OFS + 6 ==> h[k] == Field("ustar")[k - MAGIC_OFS])
    && (VERSION_OFS <= k < VERSION_OFS + 2 ==> h[k] == '0')
  }

  lemma SlicesOf(name: string, t: FileType, size: I32, u: string, h: string)
    requires |name| < NAME_SIZE && |u| == |h| == HEADER_SIZE && |SizeField(size)| == 11
    requires forall k :: 0 <= k < HEADER_SIZE ==> HeaderByte(name, t, size, u, k)
    requires forall k :: 0 <= k < HEADER_SIZE && !(CHKSUM_OFS <= k < CHKSUM_OFS + 8) ==> h[k] == u[k]
    ensures h[..|name|] == name && h[|name|] == NUL && h[NAME_SIZE - 1] == NUL && h[PREFIX_OFS] == NUL
    ensures h[SIZE_OFS..SIZE_OFS + 12] == Field(SizeField(size))
    ensures h[TYPE_OFS] == TypeFlag(t)
    ensures h[MAGIC_OFS..MAGIC_OFS + 6] == Field("ustar")
    ensures h[VERSION_OFS] == '0' && h[VERSION_OFS + 1] == '0'
  {
    hide SizeField;
    assert forall k :: 0 <= k < HEADER_SIZE && !(CHKSUM_OFS <= k < CHKSUM_OFS + 8) ==>
      HeaderByte(name, t, size, u, k) && h[k] == u[k];
    assert HeaderByte(name, t, size, u, NAME_SIZE - 1) && HeaderByte(name, t, size, u, |name|);
    assert HeaderByte(name, t, size, u, PREFIX_OFS) && HeaderByte(name, t, size, u, TYPE_OFS);
    assert HeaderByte(name, t, size, u, VERSION_OFS) && HeaderByte(name, t, size, u, VERSION_OFS + 1);
  }

  /** For every name that is accepted the parser returns the stripped name, the type, and the
      size, zero for a directory, if and only if the size is not negative or the type is a
      directory; a regular file of negative size is refused as too large. */
  lemma RoundTrip(fileName: string, t: FileType, size: I32)
    requires CString(fileName)
    ensures Make(fileName, t, size).None? <==> |Strip(fileName)| > 99
    ensures Make(fileName, t, size).Some? ==>
      var h := Make(fileName, t, size).value;
      Parse(h) ==
        if t.Directory? then Entry(Strip(fileName), Directory, 0)
        else if size >= 0 then Entry(Strip(fileName), Regular, size)
        else Error("file too large")
  {
    var name := Strip(fileName);
    StripIsIdempotent(fileName);
    StripKeepsCString(fileName);
    if |name| <= 99 {
      ParsesHeader(name, t, size);
    }
  }

  lemma ParsesHeader(name: string, t: FileType, size: I32)
    requires |name| <= 99 && CString(name) && Strip(name) == name
    ensures Parse(Header(name, t, size)) ==
      if t.Directory? then Entry(name, Directory, 0)
      else if size >= 0 then Entry(name, Regular, size)
      else Error("file too large")
  {
    var h := Header(name, t, size);
    HeaderFields(name, t, size);
    ChecksumReads(h);
    SizeReads(size);
    hide Header, ParseOctal, Octal, SizeField, Checksum, Strip, UpToNul;
    NameReads(name, h);
    ParseOf(h, name, t, size);
  }

  lemma NameReads(name: string, h: string)
    requires |h| == HEADER_SIZE && |name| <= 99 && CString(name) && h[..|name|] == name && h[|name|] == NUL
    ensures UpToNul(h[..NAME_SIZE]) == name
  {
    assert h[..NAME_SIZE][..|name|] == h[..|name|];
    UpToNulIs(name, h[..NAME_SIZE]);
  }

  lemma ParseOf(h: string, name: string, t: FileType, size: I32)
    requires |h| == HEADER_SIZE && UpToNul(h[..NAME_SIZE]) == name && Strip(name) == name
    requires h[NAME_SIZE - 1] == NUL && h[PREFIX_OFS] == NUL && h[TYPE_OFS] == TypeFlag(t)
    requires h[MAGIC_OFS..MAGIC_OFS + 6] == Field("ustar")
    requires h[VERSION_OFS] == '0' && h[VERSION_OFS + 1] == '0'
    requires ParseOctal(h[CHKSUM_OFS..CHKSUM_OFS + 8], 0, 0) == Some(Checksum(h, HEADER_SIZE))
    requires ParseOctal(h[SIZE_OFS..SIZE_OFS + 12], 0, 0) == Some(ToU32(size))
    requires (ToU32(size) <= INT_MAX <==> size >= 0) && (size >= 0 ==> ToU32(size) == size)
    ensures Parse(h) ==
      if t.Directory? then Entry(name, Directory, 0)
      else if size >= 0 then Entry(name, Regular, size)
      else Error("file too large")
  {
  }

  lemma ChecksumReads(h: string)
    requires |h| == HEADER_SIZE
    ensures ParseOctal(Field(Octal(Checksum(h, HEADER_SIZE), 7)), 0, 0) == Some(Checksum(h, HEADER_SIZE))
  {
    ChecksumFills(h);
    hide Octal, Value, AllOctal, Checksum, ParseOctal;
    FieldReads(Octal(Checksum(h, HEADER_SIZE), 7));
  }

  lemma SizeReads(size: I32)
    ensures ParseOctal(Field(SizeField(size)), 0, 0) == Some(ToU32(size))
    ensures ToU32(size) <= INT_MAX <==> size >= 0
    ensures size >= 0 ==> ToU32(size) == size
  {
    SizeFills(size);
    WordOf(size);
    FieldReads(SizeField(size));
    hide ParseOctal, SizeField, ToU32, AllOctal, Value;
  }

  lemma WordOf(size: I32)
    ensures ToU32(size) <= INT_MAX <==> size >= 0
    ensures size >= 0 ==> ToU32(size) == size
  {
  }

  lemma FieldReads(s: string)
    ensures AllOctal(s) && |s| > 0 && Value(s, 8) <= ULONG_MAX ==> ParseOctal(Field(s), 0, 0) == Some(Value(s, 8))
  {
    assert Value(s[..0], 8) == 0;
    if AllOctal(s) && |s| > 0 && Value(s, 8) <= ULONG_MAX {
      ParsesBack(s, 0, 0);
    }
  }

  // ---------- in place ----------

  /** The loop of strip_antisocial_prefixes. */
  method StripPrefixes(fileName: string) returns (r: string)
    ensures r == Strip(fileName)
  {
    r := fileName;
    while Antisocial(r)
      invariant Strip(r) == Strip(fileName)
      decreases |r|
    {
      r := AfterSlash(r);
    }
    if r == "" || r == ".." {
      r := ".";
    }
  }

  method CalculateChksum(header: array<char>) returns (chksum: nat)
    requires header.Length == HEADER_SIZE
    ensures chksum == Checksum(header[..], HEADER_SIZE)
  {
    chksum := 0;
    var i := 0;
    while i < HEADER_SIZE
      invariant 0 <= i <= HEADER_SIZE && chksum == Checksum(header[..], i)
    {
      var inChksumField := CHKSUM_OFS <= i < CHKSUM_OFS + 8;
      chksum := chksum + if inChksumField then ' ' as int else header[i] as int % 256;
      i := i + 1;
    }
  }

  method ParseOctalField(s: string) returns (value: Option<nat>)
    ensures value == ParseOctal(s, 0, 0)
  {
    var ofs, v := 0, 0;
    while ofs < |s|
      invariant 0 <= ofs <= |s| && 0 <= v
      invariant ParseOctal(s, ofs, v) == ParseOctal(s, 0, 0)
    {
      var c := s[ofs];
      if IsOctal(c) {
        if v > ULONG_MAX / 8 {
          return None;
        }
        v := c as int - '0' as int + v * 8;
      } else if c == ' ' || c == NUL {
        return if ofs > 0 then Some(v) else None;
      } else {
        return None;
      }
      ofs := ofs + 1;
    }
    return None;
  }

  method PutField(header: array<char>, ofs: nat, s: string)
    requires ofs + |s| <= header.Length
    modifies header
    ensures header[..] == Patch(old(header[..]), ofs, s)
  {
    var i := 0;
    while i < |s|
      invariant 0 <= i <= |s|
      invariant forall k :: 0 <= k < header.Length ==> header[k] == if ofs <= k < ofs + i then s[k - ofs] else old(header[k])
    {
      header[ofs + i] := s[i];
      i := i + 1;
    }
    assert header[..] == Patch(old(header[..]), ofs, s);
  }

  method Clear(header: array<char>)
    requires header.Length == HEADER_SIZE
    modifies header
    ensures header[..] == seq(HEADER_SIZE, _ => NUL)
  {
    var i := 0;
    while i < HEADER_SIZE
      invariant 0 <= i <= HEADER_SIZE
      invariant forall k :: 0 <= k < i ==> header[k] == NUL
    {
      header[i] := NUL;
      i := i + 1;
    }
    assert header[..] == seq(HEADER_SIZE, _ => NUL);
  }

  method PutFirstFields(name: string, t: FileType, size: I32, header: array<char>)
    requires header.Length == HEADER_SIZE && |name| < NAME_SIZE
    modifies header
    ensures header[..] == FirstFields(name, t, size)
  {
    hide Patch, Octal, Mode, SizeField;
    FieldsFill(t, size);
    Clear(header);
    PutField(header, 0, Field(name));
    PutField(header, 100, Field(Mode(t)));
    PutField(header, 108, Field("0000000"));
    PutField(header, 116, Field("0000000"));
    PutField(header, SIZE_OFS, Field(SizeField(size)));
    PutField(header, 136, Field(Octal(MTIME, 11)));
  }

  method PutLastFields(t: FileType, header: array<char>)
    requires header.Length == HEADER_SIZE
    modifies header
    ensures header[..] == LastFields(old(header[..]), t)
  {
    hide Patch;
    PutField(header, TYPE_OFS, [TypeFlag(t)]);
    PutField(header, MAGIC_OFS, Field("ustar"));
    PutField(header, VERSION_OFS, "00");
    PutField(header, 297, Field("root"));
    PutField(header, 265, Field("root"));
  }

  /** ustar_make_header. */
  method MakeHeader(fileName: string, t: FileType, size: I32, header: array<char>) returns (ok: bool)
    requires header.Length == HEADER_SIZE
    modifies header
    ensures ok <==> Make(fileName, t, size).Some?
    ensures header[..] == if ok then Make(fileName, t, size).value else old(header[..])
  {
    hide Patch, FirstFields, LastFields, Octal, Checksum, Strip;
    var name := StripPrefixes(fileName);
    if |name| > 99 {
      return false;
    }
    PutFirstFields(name, t, size, header);
    PutLastFields(t, header);
    var chksum := CalculateChksum(header);
    ChecksumFills(header[..]);
    PutField(header, CHKSUM_OFS, Field(Octal(chksum, 7)));
    return true;
  }

  /** ustar_parse_header. */
  method ParseHeader(header: array<char>) returns (p: Parsed)
    requires header.Length == HEADER_SIZE
    ensures p == Parse(header[..])
  {
    hide ParseOctal, Checksum, Strip, UpToNul;
    var i := 0;
    while i < HEADER_SIZE && header[i] == NUL
      invariant 0 <= i <= HEADER_SIZE && forall k :: 0 <= k < i ==> header[k] == NUL
    {
      i := i + 1;
    }
    if i == HEADER_SIZE {
      return EndOfArchive;
    }
    assert header[..][i] != NUL;
    var h := header[..];
    if h[MAGIC_OFS..MAGIC_OFS + 6] != Field("ustar") {
      return Error("not a ustar archive");
    } else if h[VERSION_OFS] != '0' || h[VERSION_OFS + 1] != '0' {
      return Error("invalid ustar version");
    }
    var chksum := ParseOctalField(h[CHKSUM_OFS..CHKSUM_OFS + 8]);
    if chksum.None? {
      return Error("corrupt chksum field");
    }
    var sum := CalculateChksum(header);
    if chksum.value != sum {
      return Error("checksum mismatch");
    } else if h[NAME_SIZE - 1] != NUL || h[PREFIX_OFS] != NUL {
      return Error("file name too long");
    } else if h[TYPE_OFS] != '0' && h[TYPE_OFS] != '5' {
      return Error("unimplemented file type");
    }
    var size := Some(0);
    if h[TYPE_OFS] == '0' {
      size := ParseOctalField(h[SIZE_OFS..SIZE_OFS + 12]);
      if size.None? {
        return Error("corrupt file size field");
      } else if size.value > INT_MAX {
        return Error("file too large");
      }
    }
    var name := StripPrefixes(UpToNul(h[..NAME_SIZE]));
    return Entry(name, if h[TYPE_OFS] == '0' then Regular else Directory, size.value);
  }
}
