/**
  The mounted ramdisk (initrd.c): nodes made from the headers in memory, which are
  relocated in place; lookup by name, listing and reading.  `image` is the memory from
  `location` on, so that byte `k` of it has the address `location + k`.
*/
module InitrdFs {
  import opened Basics
  import opened InitrdLayout

  const NODE_NAME := 128

  datatype Node = Node(name: seq<Byte>, length: Word32, inode: Word32)
  datatype Dir = Root | Dev
  datatype Found = NotFound | DevDir | File(inode: Word32)

  const DEV_NAME: seq<Byte> := [100, 101, 118]      // "dev"

  function ZeroName(): (s: seq<Byte>)
    ensures |s| == NODE_NAME && forall k | 0 <= k < |s| :: s[k] == 0
  {
    seq(NODE_NAME, _ => 0)
  }

  /** The first file whose node has this name. */
  function FirstNamed(nodes: seq<Node>, name: seq<Byte>, from: nat): nat
    requires from <= |nodes|
    decreases |nodes| - from
  {
    if from == |nodes| || CString(nodes[from].name) == name then from else FirstNamed(nodes, name, from + 1)
  }

  function Lookup(nodes: seq<Node>, dir: Dir, name: seq<Byte>): Found {
    if dir == Root && name == DEV_NAME then DevDir
    else
      var i := FirstNamed(nodes, name, 0);
      if i < |nodes| then File(nodes[i].inode) else NotFound
  }

  /** How many bytes initrd_read hands out: the test for the end of the file is made on a wrapped sum. */
  function ReadCount(length: Word32, offset: Word32, size: Word32): Word32 {
    if offset > length then 0
    else if (offset + size) % 0x1_0000_0000 > length then length - offset
    else size
  }

  /** How many bytes of the file there are from `offset` on, and no more than `size`. */
  function Clamped(length: Word32, offset: Word32, size: Word32): Word32 {
    if offset > length then 0 else if size > length - offset then length - offset else size
  }

  /** The clamp is right exactly when the end asked for does not wrap round to within the file. */
  lemma ReadCountClamps(length: Word32, offset: Word32, size: Word32)
    ensures ReadCount(length, offset, size) == Clamped(length, offset, size)
      <==> offset > length || offset + size < 0x1_0000_0000 || offset + size - 0x1_0000_0000 > length
    ensures ReadCount(length, offset, size) == Clamped(length, offset, size) || ReadCount(length, offset, size) == size
    ensures ReadCount(1, 1, 0xFFFF_FFFF) == 0xFFFF_FFFF && Clamped(1, 1, 0xFFFF_FFFF) == 0
  {
  }

  // ------------------------------------------------------------ what mounting leaves

  ghost predicate NodeMade(node: Node, image: seq<Byte>, i: nat)
    requires HeaderPlace(i + 1) <= |image|
  {
    var h := HeaderAt(image, i);
    && h.magic == MAGIC && 0 in node.name && |node.name| == NODE_NAME && CString(node.name) == CString(h.name)
    && node.length == h.length && node.inode == i
  }

  function Relocated(h: Header, location: Word32): Header {
    h.(offset := (h.offset + location) % 0x1_0000_0000)
  }

  /** After mounting: one node for each header; header offsets have become addresses, no other byte has changed. */
  ghost predicate Mounted(image0: seq<Byte>, location: Word32, image: seq<Byte>, nodes: seq<Node>) {
    && 4 <= |image| == |image0| && image[..4] == image0[..4] && |nodes| == UnLe(image0[..4])
    && HeaderPlace(|nodes|) <= |image|
    && image[HeaderPlace(|nodes|)..] == image0[HeaderPlace(|nodes|)..]
    && (forall i: nat | i < |nodes| :: NodeMade(nodes[i], image0, i))
    && (forall i: nat | i < |nodes| :: HeaderMoved(image0, location, image, i))
  }

  ghost predicate HeaderMoved(image0: seq<Byte>, location: Word32, image: seq<Byte>, i: nat)
    requires HeaderPlace(i + 1) <= |image| == |image0|
  {
    HeaderAt(image, i) == Relocated(HeaderAt(image0, i), location)
  }

  /** What the source takes for granted of a ramdisk: headers inside it, names not empty and with an end. */
  ghost predicate Plausible(image: seq<Byte>) {
    && 4 <= |image| && HeaderPlace(UnLe(image[..4])) <= |image|
    && forall i: nat | i < UnLe(image[..4]) :: NamePlausible(image, i)
  }

  ghost predicate NamePlausible(image: seq<Byte>, i: nat)
    requires HeaderPlace(i + 1) <= |image|
  {
    0 in HeaderAt(image, i).name && CString(HeaderAt(image, i).name) != []
  }

  /** strcpy copies at least one character and never the NUL. */
  function Copied(dest: seq<Byte>, s: seq<Byte>): seq<Byte>
    requires |s| <= |dest|
  {
    s + dest[|s|..]
  }

  lemma CopiedReads(s: seq<Byte>)
    requires 0 !in s && |s| < NODE_NAME
    ensures |Copied(ZeroName(), s)| == NODE_NAME
    ensures 0 in Copied(ZeroName(), s) && CString(Copied(ZeroName(), s)) == s
  {
    var d := Copied(ZeroName(), s);
    assert d[|s|] == 0 && d[..|s|] == s;
    CStringIs(d, |s|);
  }

  // ------------------------------------------------------------ packing and mounting

  /** The bytes a read of `count` bytes from `offset` on fetches: from the address in the header. */
  function Fetched(image: seq<Byte>, location: Word32, i: nat, offset: Word32, count: nat): seq<Byte>
    requires HeaderPlace(i + 1) <= |image|
    requires location <= HeaderAt(image, i).offset + offset
    requires HeaderAt(image, i).offset + offset - location + count <= |image|
  {
    var k := HeaderAt(image, i).offset + offset - location;
    image[k..k + count]
  }

  lemma {:induction false} FirstNamedFinds(nodes: seq<Node>, name: seq<Byte>, from: nat, k: nat)
    requires from <= k < |nodes| && CString(nodes[k].name) == name
    requires forall j | from <= j < k :: CString(nodes[j].name) != name
    ensures FirstNamed(nodes, name, from) == k
    decreases k - from
  {
    if from < k {
      FirstNamedFinds(nodes, name, from + 1, k);
    }
  }

  lemma {:induction false} FirstNamedFrom(nodes: seq<Node>, name: seq<Byte>, from: nat)
    requires from <= |nodes|
    ensures var k := FirstNamed(nodes, name, from);
      && from <= k <= |nodes| && (k < |nodes| ==> CString(nodes[k].name) == name)
      && forall j | from <= j < k :: CString(nodes[j].name) != name
    decreases |nodes| - from
  {
    if from < |nodes| && CString(nodes[from].name) != name {
      FirstNamedFrom(nodes, name, from + 1);
    }
  }

  /** Node `k` is the first that carries the name. */
  predicate FirstWith(nodes: seq<Node>, name: seq<Byte>, k: nat) {
    k < |nodes| && CString(nodes[k].name) == name && forall j | 0 <= j < k :: CString(nodes[j].name) != name
  }

  /** A lookup answers with the directory /dev, with the first node of that name, or with nothing, and when. */
  lemma LookupAnswers(nodes: seq<Node>, dir: Dir, name: seq<Byte>)
    ensures Lookup(nodes, dir, name) == DevDir <==> dir == Root && name == [100, 101, 118]
    ensures Lookup(nodes, dir, name) == NotFound
       <==> !(dir == Root && name == [100, 101, 118]) && forall k | 0 <= k < |nodes| :: CString(nodes[k].name) != name
    ensures forall k: nat | FirstWith(nodes, name, k) && !(dir == Root && name == [100, 101, 118]) ::
      Lookup(nodes, dir, name) == File(nodes[k].inode)
  {
    hide CString;
    FirstNamedFrom(nodes, name, 0);
    forall k: nat | FirstWith(nodes, name, k) && !(dir == Root && name == [100, 101, 118])
      ensures Lookup(nodes, dir, name) == File(nodes[k].inode)
    {
      FirstNamedFinds(nodes, name, 0, k);
    }
  }

  /** Every node carries the name and the number of its file. */
  lemma NodesNamed(image0: seq<Byte>, names: seq<seq<Byte>>, contents: seq<seq<Byte>>, location: Word32,
                   image: seq<Byte>, nodes: seq<Node>)
    requires Packed(image0, names, contents) && Mounted(image0, location, image, nodes)
    ensures |nodes| == |names|
    ensures forall j: nat | j < |nodes| ::
      CString(nodes[j].name) == names[j] && nodes[j].inode == j && nodes[j].length == |contents[j]|
  {
    hide CString, Decode, UnLe;
    forall j: nat | j < |nodes|
      ensures CString(nodes[j].name) == names[j] && nodes[j].inode == j && nodes[j].length == |contents[j]|
    {
      assert HoldsFile(image0, j, names[j], contents[j]) && NodeMade(nodes[j], image0, j);
    }
  }

  /** In a mounted ramdisk a name is found, in either directory, exactly if a file was packed under it. */
  lemma PackedOrNot(image0: seq<Byte>, names: seq<seq<Byte>>, contents: seq<seq<Byte>>, location: Word32,
                    image: seq<Byte>, nodes: seq<Node>, dir: Dir, name: seq<Byte>)
    requires Packed(image0, names, contents) && Mounted(image0, location, image, nodes)
    ensures var r := Lookup(nodes, dir, name);
      if dir == Root && name == [100, 101, 118] then r == DevDir
      else if name !in names then r == NotFound
      else r.File? && r.inode < |names| && names[r.inode] == name && name !in names[..r.inode]
  {
    hide CString, Packed, Mounted, Lookup;
    NodesNamed(image0, names, contents, location, image, nodes);
    LookupAnswers(nodes, dir, name);
    if name in names {
      var i: nat :| i < |names| && names[i] == name;
      var k := FirstPlace(names, name, i);
      assert FirstWith(nodes, name, k);
    }
  }

  lemma {:induction false} FirstPlace(names: seq<seq<Byte>>, name: seq<Byte>, i: nat) returns (k: nat)
    requires i < |names| && names[i] == name
    ensures k < |names| && names[k] == name && name !in names[..k]
    ensures forall j | 0 <= j < k :: names[j] != name
    decreases i
  {
    k := i;
    if name in names[..i] {
      var j: nat :| j < i && names[..i][j] == name;
      k := FirstPlace(names, name, j);
    } else {
      assert forall j | 0 <= j < k :: names[j] == names[..k][j];
    }
  }

  /** A file packed is found under its name, if no earlier file has it and it is not "dev". */
  lemma PackedFound(image0: seq<Byte>, names: seq<seq<Byte>>, contents: seq<seq<Byte>>, location: Word32,
                    image: seq<Byte>, nodes: seq<Node>, k: nat)
    requires Packed(image0, names, contents) && Mounted(image0, location, image, nodes)
    requires k < |names| && names[k] != DEV_NAME && forall j | 0 <= j < k :: names[j] != names[k]
    ensures Lookup(nodes, Root, names[k]) == File(k)
    ensures k < |nodes| && nodes[k].length == |contents[k]|
  {
    hide CString, Packed, Mounted;
    NodesNamed(image0, names, contents, location, image, nodes);
    FirstNamedFinds(nodes, names[k], 0, k);
  }

  /** Reading file `k` fetches its contents from the relocated address. */
  lemma PackedFetched(image0: seq<Byte>, names: seq<seq<Byte>>, contents: seq<seq<Byte>>, location: Word32,
                      image: seq<Byte>, nodes: seq<Node>, k: nat, offset: Word32, count: nat)
    requires Packed(image0, names, contents) && Mounted(image0, location, image, nodes)
    requires location + |image0| < 0x1_0000_0000 && k < |names| && offset + count <= |contents[k]|
    ensures HeaderPlace(k + 1) <= |image| && HeaderAt(image, k).length == |contents[k]|
    ensures location <= HeaderAt(image, k).offset + offset
    ensures HeaderAt(image, k).offset + offset - location + count <= |image|
    ensures Fetched(image, location, k, offset, count) == contents[k][offset..offset + count]
  {
    hide CString, Decode, UnLe;
    assert HoldsFile(image0, k, names[k], contents[k]) && HeaderMoved(image0, location, image, k);
    var data, n := HeaderAt(image0, k).offset, HeaderPlace(|nodes|);
    assert HeaderAt(image, k).offset == data + location;
    SameTail(image0, image, n, data + offset, count);
    Slices(image0, data, data + |contents[k]|, offset, offset + count);
  }

  /** The end a read asks for does not wrap round to within the file, see ReadCountClamps. */
  predicate EndInRange(length: nat, offset: Word32, size: Word32) {
    offset > length || offset + size < 0x1_0000_0000 || offset + size - 0x1_0000_0000 > length
  }

  /**
    Files packed, mounted, found by name and read come back: the bytes asked for, cut off
    at the end of the file, and none from behind it.
  */
  lemma PackedMountedRead(image0: seq<Byte>, names: seq<seq<Byte>>, contents: seq<seq<Byte>>, location: Word32,
                          image: seq<Byte>, nodes: seq<Node>, k: nat, offset: Word32, size: Word32)
    requires Packed(image0, names, contents) && Mounted(image0, location, image, nodes)
    requires location + |image0| < 0x1_0000_0000
    requires k < |names| && names[k] != DEV_NAME && forall j | 0 <= j < k :: names[j] != names[k]
    requires EndInRange(|contents[k]|, offset, size)
    ensures Lookup(nodes, Root, names[k]) == File(k)
    ensures |contents[k]| < 0x1_0000_0000 && HeaderPlace(k + 1) <= |image|
    ensures var count := ReadCount(HeaderAt(image, k).length, offset, size);
      && count == Clamped(|contents[k]|, offset, size)
      && (offset > |contents[k]| ==> count == 0)
      && (offset <= |contents[k]| ==>
           && location <= HeaderAt(image, k).offset + offset
           && HeaderAt(image, k).offset + offset - location + count <= |image|
           && Fetched(image, location, k, offset, count) == contents[k][offset..offset + count])
  {
    hide CString, Decode, UnLe, Packed, Mounted, Fetched, FirstNamed;
    PackedFound(image0, names, contents, location, image, nodes, k);
    var length := nodes[k].length;
    ReadCountClamps(length, offset, size);
    if offset <= length {
      PackedFetched(image0, names, contents, location, image, nodes, k, offset, Clamped(length, offset, size));
    } else {
      PackedFetched(image0, names, contents, location, image, nodes, k, length, 0);
    }
  }

  /** What the tool packs the kernel accepts, as long as no name is empty. */
  lemma PackedMounts(image: seq<Byte>, names: seq<seq<Byte>>, contents: seq<seq<Byte>>)
    requires Packed(image, names, contents)
    ensures 4 <= |image| && HeaderPlace(UnLe(image[..4])) <= |image|
    ensures Plausible(image) <==> [] !in names
    ensures forall i: nat | i < UnLe(image[..4]) :: HeaderAt(image, i).magic == MAGIC
  {
    hide CString, Decode, UnLe;
    forall i: nat | i < |names|
      ensures HeaderAt(image, i).magic == MAGIC && (NamePlausible(image, i) <==> names[i] != [])
    {
      assert HoldsFile(image, i, names[i], contents[i]);
    }
  }

  lemma SameTail(s: seq<Byte>, t: seq<Byte>, n: nat, at: nat, count: nat)
    requires |s| == |t| && n <= at && at + count <= |s| && s[n..] == t[n..]
    ensures s[at..at + count] == t[at..at + count]
  {
    forall k | at <= k < at + count ensures s[k] == t[k] {
      assert s[n..][k - n] == s[k] && t[n..][k - n] == t[k];
    }
  }

  // ------------------------------------------------------------ listing

  datatype Item = Item(name: seq<Byte>, inode: Word32)

  /** What entry `index` of a directory says; index 0 of the root is "dev". */
  function Entry(nodes: seq<Node>, dir: Dir, index: Word32): Option<Item> {
    if dir == Root && index == 0 then Some(Item(DEV_NAME, 0))
    else
      var k := (index - 1) % 0x1_0000_0000;
      if k >= |nodes| then None else Some(Item(CString(nodes[k].name), nodes[k].inode))
  }

  /** The listing of the root names "dev" and then every packed file once, in order, and what it names is found. */
  lemma ListingFinds(image0: seq<Byte>, names: seq<seq<Byte>>, contents: seq<seq<Byte>>, location: Word32,
                     image: seq<Byte>, nodes: seq<Node>, index: Word32)
    requires Packed(image0, names, contents) && Mounted(image0, location, image, nodes)
    requires DEV_NAME !in names && forall i, j | 0 <= i < j < |names| :: names[i] != names[j]
    ensures Entry(nodes, Root, index) ==
      if index == 0 then Some(Item(DEV_NAME, 0))
      else if index <= |names| then Some(Item(names[index - 1], index - 1)) else None
    ensures 0 < index <= |names| ==> Lookup(nodes, Root, Entry(nodes, Root, index).value.name) == File(index - 1)
    ensures Lookup(nodes, Root, DEV_NAME) == DevDir
  {
    hide CString, Packed, Mounted;
    NodesNamed(image0, names, contents, location, image, nodes);
    if 0 < index <= |names| {
      PackedFound(image0, names, contents, location, image, nodes, index - 1);
    }
  }

  /** The two directories share their callback: /dev lists the files as well, but from index 1 on and not itself. */
  lemma DevListing(image0: seq<Byte>, names: seq<seq<Byte>>, contents: seq<seq<Byte>>, location: Word32,
                   image: seq<Byte>, nodes: seq<Node>, index: Word32)
    requires Packed(image0, names, contents) && Mounted(image0, location, image, nodes)
    ensures Entry(nodes, Dev, index) ==
      if 0 < index <= |names| then Some(Item(names[index - 1], index - 1)) else None
    ensures index > 0 ==> Entry(nodes, Root, index) == Entry(nodes, Dev, index)
  {
    hide CString, Packed, Mounted;
    NodesNamed(image0, names, contents, location, image, nodes);
    assert |names| <= MAX_FILES by {
      PackedFew(image0, names, contents);
    }
  }

  lemma PackedFew(image: seq<Byte>, names: seq<seq<Byte>>, contents: seq<seq<Byte>>)
    requires Packed(image, names, contents)
    ensures |names| <= MAX_FILES
  {
  }

  // ------------------------------------------------------------ relocation of one header

  /** The image with the offset of header `i` replaced. */
  function WithOffset(image: seq<Byte>, i: nat, offset: Word32): (r: seq<Byte>)
    requires HeaderPlace(i + 1) <= |image|
    ensures |r| == |image|
  {
    var at := HeaderPlace(i) + 68;
    image[..at] + Le(offset) + image[at + 4..]
  }

  lemma WithOffsetHere(image: seq<Byte>, i: nat, offset: Word32)
    requires HeaderPlace(i + 1) <= |image|
    ensures HeaderAt(WithOffset(image, i, offset), i) == HeaderAt(image, i).(offset := offset)
  {
    var lo, hi := HeaderPlace(i), HeaderPlace(i + 1);
    var b, r := image[lo..hi], WithOffset(image, i, offset)[lo..hi];
    LeBack(offset);
    hide Le, UnLe;
    assert forall k | 0 <= k < HEADER_SIZE ::
      r[k] == (if k < 68 then b[k] else if k < 72 then Le(offset)[k - 68] else b[k]);
    assert r == b[..68] + Le(offset) + b[72..];
    assert r[68..72] == Le(offset) && r[72..] == b[72..] && r[1..65] == b[1..65] && r[65..68] == b[65..68];
  }

  lemma WithOffsetElsewhere(image: seq<Byte>, i: nat, offset: Word32, j: nat)
    requires HeaderPlace(i + 1) <= |image| && HeaderPlace(j + 1) <= |image| && j != i
    ensures HeaderAt(WithOffset(image, i, offset), j) == HeaderAt(image, j)
  {
    var r, lo, hi := WithOffset(image, i, offset), HeaderPlace(j), HeaderPlace(j + 1);
    hide Le, Decode;
    assert hi <= HeaderPlace(i) || HeaderPlace(i + 1) <= lo;
    assert r[lo..hi] == image[lo..hi];
  }

  /** Headers below `i` have been relocated, the others not yet; nothing else has changed. */
  ghost predicate Moving(image0: seq<Byte>, location: Word32, image: seq<Byte>, n: nat, i: nat) {
    && 4 <= |image| == |image0| && image[..4] == image0[..4] && HeaderPlace(n) <= |image| && i <= n
    && image[HeaderPlace(n)..] == image0[HeaderPlace(n)..]
    && forall j: nat | j < n ::
         if j < i then HeaderMoved(image0, location, image, j) else HeaderAt(image, j) == HeaderAt(image0, j)
  }

  lemma MoveOne(image0: seq<Byte>, location: Word32, image: seq<Byte>, n: nat, i: nat)
    requires Moving(image0, location, image, n, i) && i < n && HeaderPlace(i + 1) <= |image|
    ensures Moving(image0, location, WithOffset(image, i, Relocated(HeaderAt(image, i), location).offset), n, i + 1)
  {
    var image' := WithOffset(image, i, Relocated(HeaderAt(image, i), location).offset);
    WithOffsetHere(image, i, Relocated(HeaderAt(image, i), location).offset);
    forall j: nat | j < n && j != i ensures HeaderAt(image', j) == HeaderAt(image, j) {
      WithOffsetElsewhere(image, i, Relocated(HeaderAt(image, i), location).offset, j);
    }
    hide Decode, Le, UnLe;
    assert image'[HeaderPlace(n)..] == image[HeaderPlace(n)..];
    assert image'[..4] == image[..4];
  }

  // ------------------------------------------------------------ the code

  /** `do *ptr++ = *src++; while (*src != 0);` */
  method StrCpy(dest: array<Byte>, src: seq<Byte>)
    requires 0 in src && src[0] != 0 && |CString(src)| <= dest.Length
    modifies dest
    ensures dest[..] == Copied(old(dest[..]), CString(src))
  {
    CStringEnds(src);
    ghost var s, d0 := CString(src), dest[..];
    hide CString;
    assert forall j | 0 <= j < |s| :: src[j] == src[..|s|][j] != 0;
    dest[0] := src[0];
    var k := 1;
    while src[k] != 0
      invariant 1 <= k <= |s| && dest[..] == s[..k] + d0[k..]
      decreases |s| - k
    {
      dest[k] := src[k];
      k := k + 1;
    }
  }

  /** strcmp, as far as equality goes. */
  method StrCmp(a: seq<Byte>, b: seq<Byte>) returns (r: int)
    requires 0 in a && 0 in b
    ensures r == 0 <==> CString(a) == CString(b)
  {
    hide CString;
    CStringEnds(a);
    CStringEnds(b);
    ghost var s, t := CString(a), CString(b);
    var k := 0;
    while a[k] == b[k]
      invariant k <= |s| && k <= |t| && a[..k] == b[..k]
      decreases |a| - k
    {
      Within(a, s, k);
      Within(b, t, k);
      if a[k] == 0 {
        return 0;
      }
      k := k + 1;
    }
    Within(a, s, k);
    Within(b, t, k);
    var x: int, y: int := a[k], b[k];
    return x - y;
  }

  lemma Within(a: seq<Byte>, s: seq<Byte>, k: nat)
    requires |s| < |a| && a[..|s|] == s && a[|s|] == 0 && 0 !in s && k <= |s|
    ensures a[k] == 0 <==> k == |s|
  {
    if k < |s| {
      assert a[k] == s[k] && s[k] in s;
    }
  }

  method MemCpy(dest: array<Byte>, src: array<Byte>, from: nat, len: nat)
    requires dest != src && len <= dest.Length && from + len <= src.Length
    modifies dest
    ensures dest[..len] == src[from..from + len] && dest[len..] == old(dest[len..])
  {
    var k := 0;
    while k < len
      invariant k <= len && dest[..k] == src[from..from + k] && dest[k..] == old(dest[k..])
    {
      dest[k] := src[from + k];
      k := k + 1;
    }
  }

  class Ramdisk {
    const location: Word32
    const image: array<Byte>
    const direntName: array<Byte>
    var direntInode: Word32
    var nodes: array<Node>

    ghost predicate Valid()
      reads this, image, direntName, nodes
    {
      && image != direntName && direntName.Length == NODE_NAME
      && forall i | 0 <= i < nodes.Length ::
           0 in nodes[i].name && CString(nodes[i].name) != [] && |nodes[i].name| == NODE_NAME
    }

    constructor (location: Word32, image: array<Byte>)
      ensures this.location == location && this.image == image && nodes.Length == 0 && Valid()
      ensures fresh(direntName) && fresh(nodes)
    {
      this.location, this.image := location, image;
      direntName, direntInode := new Byte[NODE_NAME], 0;
      nodes := new Node[0];
    }

    /** `file_headers[i].offset += location`, byte by byte. */
    method Relocate(i: nat, offset: Word32)
      requires HeaderPlace(i + 1) <= image.Length
      modifies image
      ensures image[..] == WithOffset(old(image[..]), i, offset)
    {
      hide Le;
      var at, b := HeaderPlace(i) + 68, Le(offset);
      image[at] := b[0];
      image[at + 1] := b[1];
      image[at + 2] := b[2];
      image[at + 3] := b[3];
    }

    /** `false` is the panic on a header without the magic number. */
    method InitInitrd() returns (ok: bool)
      requires Valid() && Plausible(image[..])
      modifies `nodes, image
      ensures ok <==> forall i: nat | i < UnLe(old(image[..4])) :: HeaderAt(old(image[..]), i).magic == MAGIC
      ensures ok ==> Valid() && fresh(nodes) && Mounted(old(image[..]), location, image[..], nodes[..])
    {
      hide CString, Decode, UnLe, HeaderMoved, NodeMade, WithOffset, Moving, Copied;
      ghost var image0 := image[..];
      var n := UnLe(image[..4]);
      nodes := new Node[n](_ => Node(ZeroName(), 0, 0));
      MovingStarts(image0, location, n);
      for i := 0 to n
        invariant nodes.Length == n && fresh(nodes) && Moving(image0, location, image[..], n, i)
        invariant forall j: nat | j < i :: NodeMade(nodes[j], image0, j) && CString(nodes[j].name) != []
        invariant forall j: nat | j < i :: HeaderAt(image0, j).magic == MAGIC
      {
        MovingNow(image0, location, image[..], n, i);
        assert NamePlausible(image0, i);
        var h := HeaderAt(image[..], i);
        if MAGIC != h.magic {
          return false;
        }
        MoveOne(image0, location, image[..], n, i);
        Relocate(i, Relocated(h, location).offset);
        var name := new Byte[NODE_NAME](_ => 0);
        assert name[..] == ZeroName();
        NameStarts(h.name);
        StrCpy(name, h.name);
        CopiedReads(CString(h.name));
        nodes[i] := Node(name[..], h.length, i);
        MadeNode(nodes[i], image0, i);
      }
      MovingDone(image0, location, image[..], n, nodes[..]);
      return true;
    }

    /** initrd_finddir; the callback of both directories. */
    method Finddir(dir: Dir, name: seq<Byte>) returns (r: Found)
      requires Valid() && 0 in name
      ensures r == Lookup(nodes[..], dir, CString(name))
      ensures r == DevDir <==> dir == Root && CString(name) == [100, 101, 118]
      ensures r == NotFound <==>
        r != DevDir && forall k | 0 <= k < nodes.Length :: CString(nodes[k].name) != CString(name)
      ensures forall k: nat | FirstWith(nodes[..], CString(name), k) && r != DevDir :: r == File(nodes[k].inode)
    {
      hide CString;
      LookupAnswers(nodes[..], dir, CString(name));
      var dev := DEV_NAME + [0];
      DevIs();
      if dir == Root {
        var c := StrCmp(name, dev);
        if c == 0 {
          return DevDir;
        }
      }
      for i := 0 to nodes.Length
        invariant FirstNamed(nodes[..], CString(name), 0) == FirstNamed(nodes[..], CString(name), i)
      {
        var c := StrCmp(name, nodes[i].name);
        if c == 0 {
          return File(nodes[i].inode);
        }
      }
      return NotFound;
    }

    /** initrd_readdir into the shared dirent; `false` is the null pointer. */
    method Readdir(dir: Dir, index: Word32) returns (found: bool)
      requires Valid() && nodes.Length < 0x1_0000_0000
      modifies `direntInode, direntName
      ensures Valid() && found == Entry(nodes[..], dir, index).Some?
      ensures found ==>
        0 in direntName[..] && Entry(nodes[..], dir, index) == Some(Item(CString(direntName[..]), direntInode))
      ensures !found ==> direntName[..] == old(direntName[..]) && direntInode == old(direntInode)
    {
      hide CString;
      if dir == Root && index == 0 {
        DevIs();
        StrCpy(direntName, DEV_NAME + [0]);
        direntName[3] := 0;
        CStringIs(direntName[..], 3);
        assert direntName[..3] == DEV_NAME;
        direntInode := 0;
        return true;
      }
      var k := (index - 1) % 0x1_0000_0000;
      if k >= nodes.Length {
        return false;
      }
      ghost var s := CString(nodes[k].name);
      NameStarts(nodes[k].name);
      StrCpy(direntName, nodes[k].name);
      var len := StrLen(nodes[k].name);
      direntName[len] := 0;
      assert direntName[..len] == s;
      assert forall j | 0 <= j < len :: direntName[..][j] == s[j] && s[j] in s;
      CStringIs(direntName[..], len);
      assert direntName[..][len] == 0;
      direntInode := nodes[k].inode;
      return true;
    }

    method StrLen(s: seq<Byte>) returns (n: nat)
      requires 0 in s
      ensures n == |CString(s)| < |s|
    {
      hide CString;
      CStringEnds(s);
      n := 0;
      while s[n] != 0
        invariant n <= |CString(s)|
        decreases |s| - n
      {
        Within(s, CString(s), n);
        n := n + 1;
      }
      Within(s, CString(s), n);
    }

    /** initrd_read, for ranges whose end does not wrap round: then every byte copied is a byte of the file. */
    method Read(inode: nat, offset: Word32, size: Word32, buffer: array<Byte>) returns (count: Word32)
      requires HeaderPlace(inode + 1) <= image.Length && buffer != image
      requires var h := HeaderAt(image[..], inode);
        && ReadCount(h.length, offset, size) <= buffer.Length
        && (offset <= h.length ==>
              (location <= h.offset + offset < 0x1_0000_0000
               && h.offset + offset - location + ReadCount(h.length, offset, size) <= image.Length))
      modifies buffer
      ensures var h := HeaderAt(image[..], inode);
        && count == ReadCount(h.length, offset, size)
        && (offset <= h.length ==> buffer[..count] == Fetched(image[..], location, inode, offset, count))
        && buffer[count..] == old(buffer[count..])
    {
      hide Decode;
      var header := HeaderAt(image[..], inode);
      if offset > header.length {
        return 0;
      }
      count := size;
      if (offset + size) % 0x1_0000_0000 > header.length {
        count := header.length - offset;
      }
      MemCpy(buffer, image, header.offset + offset - location, count);
    }
  }

  lemma DevIs()
    ensures 0 in DEV_NAME + [0] && CString(DEV_NAME + [0]) == DEV_NAME && |DEV_NAME| == 3
    ensures (DEV_NAME + [0])[0] != 0
  {
    var d := DEV_NAME + [0];
    assert d[3] == 0;
    CStringIs(d, 3);
    assert d[..3] == DEV_NAME;
  }

  lemma NameStarts(s: seq<Byte>)
    requires 0 in s && CString(s) != []
    ensures s[0] != 0 && |CString(s)| < |s|
  {
    CStringEnds(s);
  }

  lemma MovingStarts(image: seq<Byte>, location: Word32, n: nat)
    requires 4 <= |image| && HeaderPlace(n) <= |image|
    ensures Moving(image, location, image, n, 0)
  {
    hide Decode;
  }

  lemma MovingNow(image0: seq<Byte>, location: Word32, image: seq<Byte>, n: nat, i: nat)
    requires Moving(image0, location, image, n, i) && i < n
    ensures HeaderPlace(i + 1) <= |image| == |image0| && HeaderAt(image, i) == HeaderAt(image0, i)
  {
    hide Decode;
  }

  lemma MadeNode(node: Node, image0: seq<Byte>, i: nat)
    requires HeaderPlace(i + 1) <= |image0|
    requires var h := HeaderAt(image0, i);
      && h.magic == MAGIC && 0 in node.name && |node.name| == NODE_NAME && CString(node.name) == CString(h.name)
      && node.length == h.length && node.inode == i
    ensures NodeMade(node, image0, i)
  {
  }

  lemma MovingDone(image0: seq<Byte>, location: Word32, image: seq<Byte>, n: nat, nodes: seq<Node>)
    requires Moving(image0, location, image, n, n) && n == |nodes| == UnLe(image0[..4])
    requires forall i: nat | i < n :: NodeMade(nodes[i], image0, i)
    ensures Mounted(image0, location, image, nodes)
    ensures forall i | 0 <= i < n :: 0 in nodes[i].name && |nodes[i].name| == NODE_NAME
  {
    hide Decode, UnLe, HeaderMoved, CString;
    forall i: nat | i < n ensures 0 in nodes[i].name && |nodes[i].name| == NODE_NAME {
      assert NodeMade(nodes[i], image0, i);
    }
  }
}
