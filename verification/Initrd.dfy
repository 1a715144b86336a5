/**
  The initial ramdisk as bytes: the layout that the packing tool (make_initrd.c) writes
  and the kernel (initrd.c) reads.  A file header takes 76 bytes: the magic number, the
  name, three bytes of padding, the offset and the length, least significant byte first.
*/
module InitrdLayout {
  import opened Basics

  type Byte = b: nat | b < 256

  const MAGIC: Byte := 0xBF
  const NAME_SIZE := 64
  const HEADER_SIZE := 76
  const MAX_FILES := 64

  /** Where the contents begin: behind the count and 64 headers. */
  const DATA_START := 4 + MAX_FILES * HEADER_SIZE

  function Le(x: Word32): (b: seq<Byte>)
    ensures |b| == 4
  {
    [x % 256, x / 256 % 256, x / 0x1_0000 % 256, x / 0x100_0000]
  }

  function UnLe(b: seq<Byte>): Word32
    requires |b| == 4
  {
    var b0: int, b1: int, b2: int, b3: int := b[0], b[1], b[2], b[3];
    b0 + 256 * b1 + 0x1_0000 * b2 + 0x100_0000 * b3
  }

  lemma LeBack(x: Word32)
    ensures UnLe(Le(x)) == x
  {
    assert x / 256 == x / 0x1_0000 * 256 + x / 256 % 256;
    assert x / 0x1_0000 == x / 0x100_0000 * 256 + x / 0x1_0000 % 256;
  }

  datatype FileHeader = FileHeader(magic: Byte, name: seq<Byte>, pad: seq<Byte>, offset: Word32, length: Word32)

  type Header = h: FileHeader | |h.name| == NAME_SIZE && |h.pad| == 3
    witness FileHeader(0, seq(NAME_SIZE, _ => 0), [0, 0, 0], 0, 0)

  function Encode(h: Header): (b: seq<Byte>)
    ensures |b| == HEADER_SIZE
  {
    [h.magic] + h.name + h.pad + Le(h.offset) + Le(h.length)
  }

  function Decode(b: seq<Byte>): Header
    requires |b| == HEADER_SIZE
  {
    FileHeader(b[0], b[1..65], b[65..68], UnLe(b[68..72]), UnLe(b[72..]))
  }

  lemma DecodeEncode(h: Header)
    ensures Decode(Encode(h)) == h
  {
    LeBack(h.offset);
    LeBack(h.length);
    hide Le, UnLe;
    var b := Encode(h);
    assert b[68..72] == Le(h.offset) && b[72..] == Le(h.length) && b[1..65] == h.name && b[65..68] == h.pad;
  }

  /** The place of header `i`. */
  function HeaderPlace(i: nat): nat {
    4 + HEADER_SIZE * i
  }

  function HeaderAt(image: seq<Byte>, i: nat): Header
    requires HeaderPlace(i + 1) <= |image|
  {
    Decode(image[HeaderPlace(i)..HeaderPlace(i + 1)])
  }

  lemma Slices(s: seq<Byte>, a: nat, b: nat, lo: nat, hi: nat)
    requires a <= b <= |s| && lo <= hi <= b - a
    ensures s[a..b][lo..hi] == s[a + lo..a + hi]
    ensures b == |s| ==> s[a..b] == s[a..]
  {
    var t, u := s[a..b][lo..hi], s[a + lo..a + hi];
    assert |t| == |u| && forall k | 0 <= k < |t| :: t[k] == u[k];
  }

  function EncodeAll(hs: seq<Header>): (b: seq<Byte>)
    ensures |b| == HEADER_SIZE * |hs|
  {
    if hs == [] then [] else EncodeAll(hs[..|hs| - 1]) + Encode(hs[|hs| - 1])
  }

  lemma {:induction false} EncodeAllAt(hs: seq<Header>, i: nat)
    requires i < |hs|
    ensures HEADER_SIZE * (i + 1) <= |EncodeAll(hs)|
    ensures EncodeAll(hs)[HEADER_SIZE * i..HEADER_SIZE * (i + 1)] == Encode(hs[i])
    decreases |hs|
  {
    var n := |hs| - 1;
    hide Encode;
    if i < n {
      EncodeAllAt(hs[..n], i);
    }
  }

  function Concat(files: seq<seq<Byte>>): seq<Byte> {
    if files == [] then [] else Concat(files[..|files| - 1]) + files[|files| - 1]
  }

  lemma {:induction false} ConcatAt(files: seq<seq<Byte>>, i: nat)
    requires i < |files|
    ensures var at := |Concat(files[..i])|;
      at + |files[i]| <= |Concat(files)| && Concat(files)[at..at + |files[i]|] == files[i]
    decreases |files|
  {
    var n := |files| - 1;
    if i < n {
      ConcatAt(files[..n], i);
      assert files[..n][..i] == files[..i];
    }
  }

  /** The string that starts a field, up to its first NUL. */
  function CString(s: seq<Byte>): (r: seq<Byte>)
    ensures |r| <= |s| && 0 !in r
  {
    if s == [] || s[0] == 0 then [] else [s[0]] + CString(s[1..])
  }

  lemma {:induction false} CStringIs(s: seq<Byte>, n: nat)
    requires n < |s| && s[n] == 0 && forall k | 0 <= k < n :: s[k] != 0
    ensures CString(s) == s[..n]
    decreases n
  {
    if n > 0 {
      CStringIs(s[1..], n - 1);
    }
  }

  lemma {:induction false} CStringEnds(s: seq<Byte>)
    requires 0 in s
    ensures |CString(s)| < |s| && s[|CString(s)|] == 0 && s[..|CString(s)|] == CString(s)
    decreases |s|
  {
    if s[0] != 0 {
      CStringEnds(s[1..]);
    }
  }

  // ------------------------------------------------------------ a packed image

  /** A name the packer has room for. */
  predicate Name(s: seq<Byte>) {
    |s| < NAME_SIZE && 0 !in s
  }

  /** File `i` of the image has this name and these contents. */
  ghost predicate HoldsFile(image: seq<Byte>, i: nat, name: seq<Byte>, content: seq<Byte>)
    requires HeaderPlace(i + 1) <= |image|
  {
    var h := HeaderAt(image, i);
    && h.magic == MAGIC && 0 in h.name && CString(h.name) == name
    && h.length == |content| && DATA_START <= h.offset && h.offset + h.length <= |image|
    && image[h.offset..h.offset + h.length] == content
  }

  ghost predicate Packed(image: seq<Byte>, names: seq<seq<Byte>>, contents: seq<seq<Byte>>) {
    && |names| == |contents| <= MAX_FILES && DATA_START <= |image| < 0x1_0000_0000
    && UnLe(image[..4]) == |names|
    && forall i: nat | i < |names| :: HoldsFile(image, i, names[i], contents[i])
  }

  /** Four bytes, the least significant first. */
  ghost predicate NumberStands(image: seq<Byte>, at: nat, x: int)
    requires at + 4 <= |image|
  {
    var b0: int, b1: int, b2: int, b3: int := image[at], image[at + 1], image[at + 2], image[at + 3];
    x == b0 + 0x100 * b1 + 0x1_0000 * b2 + 0x100_0000 * b3
  }

  lemma SliceStands(image: seq<Byte>, lo: nat, hi: nat, at: nat)
    requires lo <= at && at + 4 <= hi <= |image|
    ensures NumberStands(image, at, UnLe(image[lo..hi][at - lo..at - lo + 4]))
  {
    Slices(image, lo, hi, at - lo, at - lo + 4);
    var b := image[at..at + 4];
    assert b[0] == image[at] && b[1] == image[at + 1] && b[2] == image[at + 2] && b[3] == image[at + 3];
  }

  /** A packed image byte by byte: the count, and for each file magic number, name, place, length and contents. */
  lemma PackedBytes(image: seq<Byte>, names: seq<seq<Byte>>, contents: seq<seq<Byte>>, i: nat)
    returns (data: nat)
    requires Packed(image, names, contents) && i < |names|
    ensures 4 + 76 * (i + 1) <= 4868 <= |image| && NumberStands(image, 0, |names|)
    ensures var at, n := 4 + 76 * i, |names[i]|;
      && n < 64 && image[at] == 0xBF && image[at + 1..at + 1 + n] == names[i] && image[at + 1 + n] == 0
      && NumberStands(image, at + 68, data) && NumberStands(image, at + 72, |contents[i]|)
    ensures 4868 <= data && data + |contents[i]| <= |image| && image[data..data + |contents[i]|] == contents[i]
  {
    hide UnLe, CString, NumberStands;
    assert HoldsFile(image, i, names[i], contents[i]);
    var lo, hi, h := HeaderPlace(i), HeaderPlace(i + 1), HeaderAt(image, i);
    data := h.offset;
    SliceStands(image, 0, 4, 0);
    SliceStands(image, lo, hi, lo + 68);
    SliceStands(image, lo, hi, lo + 72);
    CStringEnds(h.name);
    var n := |names[i]|;
    Slices(image, lo, hi, 1, 65);
    Slices(image, lo + 1, lo + 65, 0, n);
    assert image[lo..hi][72..76] == image[lo..hi][72..];
    assert image[0..4][0..4] == image[..4];
    assert image[lo + 1..lo + 65][n] == image[lo + 1 + n];
  }
}

/** The packing tool. */
module MakeInitrd {
  import opened Basics
  import opened InitrdLayout

  /** Sizes and places are unsigned 32-bit numbers. */
  function Word(n: nat): Word32 {
    n % 0x1_0000_0000
  }

  /** Header `i` as the first loop leaves it. */
  ghost predicate HeaderMade(h: Header, name: seq<Byte>, before: seq<seq<Byte>>, content: seq<Byte>) {
    && h.magic == MAGIC && 0 in h.name && CString(h.name) == name
    && h.offset == Word(DATA_START + |Concat(before)|) && h.length == Word(|content|)
  }

  /** strcpy and the explicit terminator: what lies behind the NUL in the field stays what it was. */
  function Named(field: seq<Byte>, name: seq<Byte>): (r: seq<Byte>)
    requires |field| == NAME_SIZE && Name(name)
    ensures |r| == NAME_SIZE
  {
    name + [0] + field[|name| + 1..]
  }

  lemma NamedReads(field: seq<Byte>, name: seq<Byte>)
    requires |field| == NAME_SIZE && Name(name)
    ensures 0 in Named(field, name) && CString(Named(field, name)) == name
  {
    var r := Named(field, name);
    assert r[|name|] == 0;
    CStringIs(r, |name|);
  }

  /** The contents of the files named on the command line. */
  function Contents(argv: seq<seq<Byte>>, disk: map<seq<Byte>, seq<Byte>>): seq<seq<Byte>>
    requires forall i | 0 <= i < |argv| :: argv[i] in disk
  {
    seq(|argv|, i requires 0 <= i < |argv| => disk[argv[i]])
  }

  lemma FilePacked(headers: seq<Header>, name: seq<Byte>, contents: seq<seq<Byte>>, image: seq<Byte>, i: nat)
    requires |headers| == MAX_FILES && i < |contents| <= MAX_FILES
    requires DATA_START + |Concat(contents)| < 0x1_0000_0000
    requires HeaderMade(headers[i], name, contents[..i], contents[i])
    requires |image| == DATA_START + |Concat(contents)|
    requires image[4..DATA_START] == EncodeAll(headers) && image[DATA_START..] == Concat(contents)
    ensures HoldsFile(image, i, name, contents[i])
  {
    hide Encode, Decode, Concat, EncodeAll;
    EncodeAllAt(headers, i);
    DecodeEncode(headers[i]);
    var lo, hi := HEADER_SIZE * i, HEADER_SIZE * (i + 1);
    assert hi <= HEADER_SIZE * MAX_FILES;
    Slices(image, 4, DATA_START, lo, hi);
    ConcatAt(contents, i);
    var at := |Concat(contents[..i])|;
    Slices(image, DATA_START, |image|, at, at + |contents[i]|);
  }

  lemma ImagePacked(headers: seq<Header>, names: seq<seq<Byte>>, contents: seq<seq<Byte>>, image: seq<Byte>)
    requires |headers| == MAX_FILES && |names| == |contents| <= MAX_FILES
    requires DATA_START + |Concat(contents)| < 0x1_0000_0000
    requires forall i: nat | i < |names| :: HeaderMade(headers[i], names[i], contents[..i], contents[i])
    requires image == Le(|names|) + EncodeAll(headers) + Concat(contents)
    ensures Packed(image, names, contents)
  {
    LeBack(|names|);
    assert image[..4] == Le(|names|);
    assert image[4..DATA_START] == EncodeAll(headers) && image[DATA_START..] == Concat(contents);
    hide Le, UnLe, Encode, Decode, HeaderMade, HoldsFile;
    forall i: nat | i < |names| ensures HoldsFile(image, i, names[i], contents[i]) {
      FilePacked(headers, names[i], contents, image, i);
    }
  }

  lemma ContentsMore(argv: seq<seq<Byte>>, disk: map<seq<Byte>, seq<Byte>>, i: nat)
    requires i < |argv| && forall j | 0 <= j <= i :: argv[j] in disk
    ensures Contents(argv[..i + 1], disk) == Contents(argv[..i], disk) + [disk[argv[i]]]
    ensures |Concat(Contents(argv[..i + 1], disk))| == |Concat(Contents(argv[..i], disk))| + |disk[argv[i]]|
    ensures Concat(Contents(argv[..i + 1], disk)) == Concat(Contents(argv[..i], disk)) + disk[argv[i]]
  {
    var more := Contents(argv[..i + 1], disk);
    assert more == Contents(argv[..i], disk) + [disk[argv[i]]];
    assert more[..i] == Contents(argv[..i], disk);
  }

  /** The loop over the command line that fills the headers with a running offset. */
  method FillHeaders(headers: array<Header>, argv: seq<seq<Byte>>, disk: map<seq<Byte>, seq<Byte>>) returns (ok: bool)
    requires headers.Length == MAX_FILES && |argv| <= MAX_FILES && forall i | 0 <= i < |argv| :: Name(argv[i])
    modifies headers
    ensures ok <==> forall i | 0 <= i < |argv| :: argv[i] in disk
    ensures ok ==> forall i: nat | i < |argv| ::
      HeaderMade(headers[i], argv[i], Contents(argv[..i], disk), disk[argv[i]])
  {
    hide Concat, Contents, Named, HeaderMade;
    var offset := Word(HEADER_SIZE * MAX_FILES + 4);
    NothingBefore(argv, disk);
    for i := 0 to |argv|
      invariant forall j | 0 <= j < i :: argv[j] in disk
      invariant offset == Word(DATA_START + |Concat(Contents(argv[..i], disk))|)
      invariant forall j: nat | j < i :: HeaderMade(headers[j], argv[j], Contents(argv[..j], disk), disk[argv[j]])
    {
      if argv[i] !in disk {
        return false;
      }
      var length := |disk[argv[i]]|;
      NamedReads(headers[i].name, argv[i]);
      headers[i] := FileHeader(MAGIC, Named(headers[i].name, argv[i]), headers[i].pad, offset, Word(length));
      HeaderIs(headers[i], argv[i], Contents(argv[..i], disk), disk[argv[i]]);
      ContentsMore(argv, disk, i);
      WordSum(DATA_START + |Concat(Contents(argv[..i], disk))|, length);
      offset := Word(offset + Word(length));
    }
    return true;
  }

  lemma NothingBefore(argv: seq<seq<Byte>>, disk: map<seq<Byte>, seq<Byte>>)
    ensures Concat(Contents(argv[..0], disk)) == []
  {
  }

  lemma HeaderIs(h: Header, name: seq<Byte>, before: seq<seq<Byte>>, content: seq<Byte>)
    requires h.magic == MAGIC && 0 in h.name && CString(h.name) == name
    requires h.offset == Word(DATA_START + |Concat(before)|) && h.length == Word(|content|)
    ensures HeaderMade(h, name, before, content)
  {
  }

  lemma WordSum(a: nat, b: nat)
    ensures Word(Word(a) + Word(b)) == Word(a + b)
  {
  }

  /**
    The tool: headers, then the contents, in the order of the command line.  The header
    array starts with whatever is on the stack; `None` is the exit for a missing file.
  */
  method Pack(argv: seq<seq<Byte>>, disk: map<seq<Byte>, seq<Byte>>) returns (r: Option<seq<Byte>>)
    requires |argv| <= MAX_FILES && forall i | 0 <= i < |argv| :: Name(argv[i])
    requires (forall i | 0 <= i < |argv| :: argv[i] in disk) ==>
      DATA_START + |Concat(Contents(argv, disk))| < 0x1_0000_0000
    ensures r.Some? <==> forall i | 0 <= i < |argv| :: argv[i] in disk
    ensures r.Some? ==> Packed(r.value, argv, Contents(argv, disk))
  {
    hide Packed, Le, Encode, EncodeAll, HeaderMade, Contents, Concat;
    var headers := new Header[MAX_FILES];
    var ok := FillHeaders(headers, argv, disk);
    if !ok {
      return None;
    }
    ghost var hs := headers[..];
    var image := Le(|argv|) + EncodeAll(headers[..]);
    ghost var head := image;
    NothingBefore(argv, disk);
    for i := 0 to |argv|
      invariant image == head + Concat(Contents(argv[..i], disk))
    {
      ContentsMore(argv, disk, i);
      image := image + disk[argv[i]];
    }
    assert argv[..|argv|] == argv;
    ghost var contents := Contents(argv, disk);
    ContentsAt(argv, disk);
    ImagePacked(hs, argv, contents, image);
    return Some(image);
  }

  lemma ContentsAt(argv: seq<seq<Byte>>, disk: map<seq<Byte>, seq<Byte>>)
    requires forall i | 0 <= i < |argv| :: argv[i] in disk
    ensures |Contents(argv, disk)| == |argv|
    ensures forall i: nat | i < |argv| ::
      Contents(argv, disk)[i] == disk[argv[i]] && Contents(argv, disk)[..i] == Contents(argv[..i], disk)
  {
  }
}
