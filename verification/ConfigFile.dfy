/**
 The configuration file: its parser, the writer that serialises the merged
 items for download, and the two round trips between them.

 A read or write outside a buffer is an outcome of its own, so that it can be
 said exactly when it happens.
 */
module ConfigFile {

  import opened Octets
  import opened ConfigMerge

  const MAGIC: seq<Byte> := [0x55, 0xab, 0x23, 0x87]
  const HEADER: nat := 6
  const ENTRY_HEADER: nat := 3

  function Low(w: Word): Byte { w % 256 }
  function High(w: Word): Byte { w / 256 }
  function Join(low: Byte, high: Byte): Word { low + 256 * high }

  // ----------------------------------------------------------- encoding

  /** An item's length is kept in eight bits. */
  predicate Small(l: seq<Item>) {
    forall n :: n in l ==> |n.data| < 256
  }

  function Head(n: Item): seq<Byte>
    requires |n.data| < 256
  {
    [Low(n.offset), High(n.offset), |n.data|]
  }

  function EncodedItems(l: seq<Item>): (r: seq<Byte>)
    requires Small(l)
    decreases |l|
  {
    if l == [] then [] else Head(l[0]) + l[0].data + EncodedItems(l[1..])
  }

  /** Bytes the items take. */
  function Size(l: seq<Item>): nat
    decreases |l|
  {
    if l == [] then 0 else ENTRY_HEADER + |l[0].data| + Size(l[1..])
  }

  /** The file header for that many bytes. */
  function FileHead(w: Word): (r: seq<Byte>)
    ensures |r| == HEADER
  {
    MAGIC + [Low(w), High(w)]
  }

  function Encoded(l: seq<Item>): seq<Byte>
    requires Small(l) && Size(l) < 0x1_0000
  {
    FileHead(Size(l)) + EncodedItems(l)
  }

  // ------------------------------------------------------------ parsing

  datatype Entries = Entries(items: seq<Item>) | ReadOutside

  /** The entries that fill `data`; allocation fails after `memory` items and ends the parse quietly. */
  function EntriesOf(data: seq<Byte>, memory: nat): Entries
    decreases |data|
  {
    if data == [] then Entries([])
    else if |data| < ENTRY_HEADER then ReadOutside
    else if memory == 0 then Entries([])
    else if |data| < ENTRY_HEADER + data[2] then ReadOutside
    else
      var n := Item(Join(data[0], data[1]), data[ENTRY_HEADER..ENTRY_HEADER + data[2]]);
      match EntriesOf(data[ENTRY_HEADER + data[2]..], memory - 1)
      case Entries(rest) => Entries([n] + rest)
      case ReadOutside => ReadOutside
  }

  datatype Outcome = Parsed(items: seq<Item>) | BadMagic | BadLength | OutOfBounds

  function ParsedFile(file: seq<Byte>, memory: nat): Outcome {
    if |file| < HEADER then OutOfBounds
    else if file[..4] != MAGIC then BadMagic
    else if Join(file[4], file[5]) != |file| - HEADER then BadLength
    else match EntriesOf(file[HEADER..], memory)
      case Entries(items) => Parsed(items)
      case ReadOutside => OutOfBounds
  }

  /** The parse resumed with the items `done`. */
  function Resumed(done: seq<Item>, data: seq<Byte>, memory: nat): Entries {
    match EntriesOf(data, memory)
    case Entries(items) => Entries(done + items)
    case ReadOutside => ReadOutside
  }

  /** Where the parse ends with what it has, or outside the file. */
  lemma ResumeStops(done: seq<Item>, data: seq<Byte>, memory: nat)
    ensures data == [] || (|data| >= ENTRY_HEADER && memory == 0) ==> Resumed(done, data, memory) == Entries(done)
    ensures 0 < |data| < ENTRY_HEADER ==> Resumed(done, data, memory) == ReadOutside
    ensures |data| >= ENTRY_HEADER && memory > 0 && |data| < ENTRY_HEADER + data[2] ==>
              Resumed(done, data, memory) == ReadOutside
  {
  }

  lemma ResumeOne(done: seq<Item>, data: seq<Byte>, memory: nat)
    requires |data| >= ENTRY_HEADER && memory > 0 && |data| >= ENTRY_HEADER + data[2]
    ensures Resumed(done, data, memory)
            == Resumed(done + [Item(Join(data[0], data[1]), data[ENTRY_HEADER..ENTRY_HEADER + data[2]])],
                       data[ENTRY_HEADER + data[2]..], memory - 1)
  {
  }

  lemma TailSlices(file: seq<Byte>, at: nat, from: nat, to: nat)
    requires from <= to && at + to <= |file|
    ensures file[at..][from..to] == file[at + from..at + to]
    ensures file[at..][to..] == file[at + to..]
  {
  }

  /** The entry at a place of the file. */
  function EntryAt(file: seq<Byte>, at: nat): Item
    requires at + ENTRY_HEADER <= |file| && at + ENTRY_HEADER + file[at + 2] <= |file|
  {
    Item(Join(file[at], file[at + 1]), file[at + ENTRY_HEADER..at + ENTRY_HEADER + file[at + 2]])
  }

  lemma ResumeAt(done: seq<Item>, file: seq<Byte>, at: nat, memory: nat)
    requires at + ENTRY_HEADER <= |file| && at + ENTRY_HEADER + file[at + 2] <= |file| && memory > 0
    ensures Resumed(done, file[at..], memory)
            == Resumed(done + [EntryAt(file, at)], file[at + ENTRY_HEADER + file[at + 2]..], memory - 1)
  {
    TailSlices(file, at, ENTRY_HEADER, ENTRY_HEADER + file[at + 2]);
    ResumeOne(done, file[at..], memory);
  }

  /** The cursor loop over the entries. */
  method ParseEntries(file: seq<Byte>, memory: nat) returns (r: Entries)
    requires |file| >= HEADER
    ensures r == EntriesOf(file[HEADER..], memory)
  {
    var i, left, items := 0, memory, [];
    ResumeStart(file[HEADER..], memory);
    while i < |file| - HEADER
      invariant i <= |file| - HEADER
      invariant EntriesOf(file[HEADER..], memory) == Resumed(items, file[HEADER + i..], left)
    {
      var entry := HEADER + i;
      ResumeStops(items, file[entry..], left);
      if entry + ENTRY_HEADER > |file| {
        return ReadOutside;
      }
      var len := file[entry + 2];
      if left == 0 {
        return Entries(items);
      }
      if entry + ENTRY_HEADER + len > |file| {
        return ReadOutside;
      }
      ResumeAt(items, file, entry, left);
      items := items + [EntryAt(file, entry)];
      i, left := i + len + ENTRY_HEADER, left - 1;
    }
    ResumeStops(items, file[HEADER + i..], left);
    r := Entries(items);
  }

  lemma ResumeStart(data: seq<Byte>, memory: nat)
    ensures Resumed([], data, memory) == EntriesOf(data, memory)
  {
  }

  method Parse(file: seq<Byte>, memory: nat) returns (r: Outcome)
    ensures r == ParsedFile(file, memory)
  {
    if |file| < HEADER {
      return OutOfBounds;
    }
    var length := Join(file[4], file[5]);
    if file[..4] != MAGIC {
      return BadMagic;
    }
    if length != |file| - HEADER {
      return BadLength;
    }
    var e := ParseEntries(file, memory);
    match e
    case Entries(items) => r := Parsed(items);
    case ReadOutside => r := OutOfBounds;
  }

  // -------------------------------------------------------- the format

  /** An item in the file: offset and length in front of the data, the offset with its low octet first. */
  lemma ItemOctets(n: Item, l: seq<Item>)
    requires |n.data| < 256 && Small(l)
    ensures Small([n] + l)
    ensures EncodedItems([n] + l) == [n.offset % 256, n.offset / 256, |n.data|] + n.data + EncodedItems(l)
    ensures Size([n] + l) == 3 + |n.data| + Size(l) && Size([]) == 0
  {
    assert ([n] + l)[1..] == l;
  }

  /** The file: the magic number 0x8723ab55 and the length of what follows, both with low octets first. */
  lemma FileOctets(l: seq<Item>)
    requires Small(l) && Size(l) < 0x1_0000
    ensures Encoded(l) == [0x55, 0xab, 0x23, 0x87, Size(l) % 256, Size(l) / 256] + EncodedItems(l)
  {
  }

  /** When a file is refused, in its octets. */
  lemma RefusedWhen(file: seq<Byte>, memory: nat)
    requires |file| >= 6
    ensures ParsedFile(file, memory) == BadMagic <==> file[..4] != [0x55, 0xab, 0x23, 0x87]
    ensures ParsedFile(file, memory) == BadLength <==>
              file[..4] == [0x55, 0xab, 0x23, 0x87] && file[4] as int + 256 * (file[5] as int) != |file| - 6
  {
  }

  // ------------------------------------------------------------ writing

  datatype Saved = Saved(bytes: seq<Byte>) | WroteOutside

  lemma {:induction false} SizeIsLength(l: seq<Item>)
    requires Small(l)
    ensures |EncodedItems(l)| == Size(l)
    decreases |l|
  {
    if l != [] {
      SizeIsLength(l[1..]);
    }
  }

  lemma {:induction false} SizeAppend(l: seq<Item>, n: Item)
    ensures Size(l + [n]) == Size(l) + ENTRY_HEADER + |n.data|
    decreases |l|
  {
    if l != [] {
      SizeAppend(l[1..], n);
      assert (l + [n])[1..] == l[1..] + [n];
    }
  }

  lemma {:induction false} EncodedAppend(l: seq<Item>, n: Item)
    requires Small(l) && |n.data| < 256
    ensures Small(l + [n]) && EncodedItems(l + [n]) == EncodedItems(l) + Head(n) + n.data
    decreases |l|
  {
    if l == [] {
      assert l + [n] == [n] && EncodedItems([n][1..]) == [];
    } else {
      EncodedAppend(l[1..], n);
      assert (l + [n])[1..] == l[1..] + [n];
    }
  }

  lemma {:induction false} SizeMonotone(l: seq<Item>, k: nat)
    requires k <= |l|
    ensures Size(l[..k]) <= Size(l)
    decreases |l| - k
  {
    if k < |l| {
      SizeMonotone(l, k + 1);
      assert l[..k + 1] == l[..k] + [l[k]];
      SizeAppend(l[..k], l[k]);
    } else {
      assert l[..k] == l;
    }
  }

  lemma WrapAdd(a: nat, b: nat)
    ensures (a % 0x1_0000 + b) % 0x1_0000 == (a + b) % 0x1_0000
  {
    assert a == 0x1_0000 * (a / 0x1_0000) + a % 0x1_0000;
  }

  /** The lengths are 16-bit sums: they wrap. */
  method Lengths(l: seq<Item>) returns (configLen: Word, dlen: Word)
    ensures configLen == (HEADER + Size(l)) % 0x1_0000
    ensures dlen == Size(l) % 0x1_0000
  {
    configLen, dlen := HEADER, 0;
    for k := 0 to |l|
      invariant configLen == (HEADER + Size(l[..k])) % 0x1_0000
      invariant dlen == Size(l[..k]) % 0x1_0000
    {
      assert l[..k + 1] == l[..k] + [l[k]];
      SizeAppend(l[..k], l[k]);
      WrapAdd(HEADER + Size(l[..k]), ENTRY_HEADER + |l[k].data|);
      WrapAdd(Size(l[..k]), ENTRY_HEADER + |l[k].data|);
      configLen := (configLen + ENTRY_HEADER + |l[k].data|) % 0x1_0000;
      dlen := (dlen + ENTRY_HEADER + |l[k].data|) % 0x1_0000;
    }
    assert l[..|l|] == l;
  }

  /** Copies bytes into the buffer at p; the rest of the buffer is untouched. */
  method PutAt(buf: array<Byte>, p: nat, bytes: seq<Byte>)
    requires p + |bytes| <= buf.Length
    modifies buf
    ensures buf[..p + |bytes|] == old(buf[..p]) + bytes
  {
    for k := 0 to |bytes|
      invariant buf[..p + k] == old(buf[..p]) + bytes[..k]
    {
      buf[p + k] := bytes[k];
    }
  }

  method WriteHeader(buf: array<Byte>, dlen: Word)
    requires buf.Length >= HEADER
    modifies buf
    ensures buf[..HEADER] == FileHead(dlen)
  {
    PutAt(buf, 0, MAGIC);
    PutAt(buf, 4, [Low(dlen), High(dlen)]);
  }

  method WriteItem(buf: array<Byte>, p: nat, n: Item)
    requires |n.data| < 256 && p + ENTRY_HEADER + |n.data| <= buf.Length
    modifies buf
    ensures buf[..p + ENTRY_HEADER + |n.data|] == old(buf[..p]) + Head(n) + n.data
  {
    PutAt(buf, p, Head(n));
    PutAt(buf, p + ENTRY_HEADER, n.data);
  }

  lemma Appended(front: seq<Byte>, items: seq<Byte>, head: seq<Byte>, data: seq<Byte>)
    ensures front + items + head + data == front + (items + head + data)
  {
  }

  /** The item loop: it goes on writing until an item does not fit. */
  method WriteItems(buf: array<Byte>, l: seq<Item>) returns (inside: bool)
    requires buf.Length >= HEADER && Small(l)
    modifies buf
    ensures inside == (HEADER + Size(l) <= buf.Length)
    ensures inside ==> buf[..HEADER + Size(l)] == old(buf[..HEADER]) + EncodedItems(l)
  {
    var p := HEADER;
    for k := 0 to |l|
      invariant p == HEADER + Size(l[..k]) <= buf.Length
      invariant buf[..p] == old(buf[..HEADER]) + EncodedItems(l[..k])
    {
      assert l[..k + 1] == l[..k] + [l[k]];
      SizeAppend(l[..k], l[k]);
      EncodedAppend(l[..k], l[k]);
      if p + ENTRY_HEADER + |l[k].data| > buf.Length {
        SizeMonotone(l, k + 1);
        return false;
      }
      Appended(old(buf[..HEADER]), EncodedItems(l[..k]), Head(l[k]), l[k].data);
      WriteItem(buf, p, l[k]);
      p := p + ENTRY_HEADER + |l[k].data|;
    }
    assert l[..|l|] == l;
    inside := true;
  }

  /**
   The writer. It stays inside its buffer exactly when header and items together
   are shorter than 65536 bytes; its result is then the encoding.
   */
  method Save(l: seq<Item>) returns (r: Saved)
    requires Small(l)
    ensures r == if HEADER + Size(l) < 0x1_0000 then Saved(Encoded(l)) else WroteOutside
  {
    var configLen, dlen := Lengths(l);
    if configLen < HEADER {
      return WroteOutside;
    }
    var buf := new Byte[configLen](_ => 0);
    WriteHeader(buf, dlen);
    var inside := WriteItems(buf, l);
    if !inside {
      return WroteOutside;
    }
    EncodedFrom(l, EncodedItems(l));
    r := Saved(buf[..HEADER + Size(l)]);
  }

  // -------------------------------------------------------- round trips

  lemma Front(n: Item, tail: seq<Byte>, memory: nat)
    requires |n.data| < 256 && memory > 0
    ensures EntriesOf(Head(n) + n.data + tail, memory)
            == match EntriesOf(tail, memory - 1)
               case Entries(rest) => Entries([n] + rest)
               case ReadOutside => ReadOutside
  {
  }

  /** The first items of a list, as far as memory goes. */
  function Upto(l: seq<Item>, memory: nat): seq<Item> {
    if memory < |l| then l[..memory] else l
  }

  lemma UptoFront(l: seq<Item>, memory: nat)
    requires l != [] && memory > 0
    ensures [l[0]] + Upto(l[1..], memory - 1) == Upto(l, memory)
  {
  }

  lemma FrontOfList(l: seq<Item>, memory: nat)
    requires Small(l) && l != [] && memory > 0
    requires EntriesOf(EncodedItems(l[1..]), memory - 1).Entries?
    ensures EntriesOf(EncodedItems(l), memory)
            == Entries([l[0]] + EntriesOf(EncodedItems(l[1..]), memory - 1).items)
  {
    Front(l[0], EncodedItems(l[1..]), memory);
  }

  lemma NoMemory(data: seq<Byte>)
    requires |data| >= ENTRY_HEADER
    ensures EntriesOf(data, 0) == Entries([])
  {
  }

  lemma {:induction false} EntriesRoundTrip(l: seq<Item>, memory: nat)
    requires Small(l)
    ensures EntriesOf(EncodedItems(l), memory) == Entries(Upto(l, memory))
    decreases |l|
  {
    if l != [] {
      if memory == 0 {
        SizeIsLength(l);
        NoMemory(EncodedItems(l));
      } else {
        EntriesRoundTrip(l[1..], memory - 1);
        FrontOfList(l, memory);
        UptoFront(l, memory);
      }
    }
  }

  /** A file that starts with the right header is judged by its entries. */
  lemma ParseFramed(data: seq<Byte>, memory: nat)
    requires |data| < 0x1_0000
    ensures ParsedFile(FileHead(|data|) + data, memory)
            == match EntriesOf(data, memory)
               case Entries(items) => Parsed(items)
               case ReadOutside => OutOfBounds
  {
  }

  /** Parsing what the writer wrote gives the items back, or as many as there was memory for. */
  lemma ParseAfterSave(l: seq<Item>, memory: nat)
    requires Small(l) && Size(l) < 0x1_0000
    ensures ParsedFile(Encoded(l), memory) == Parsed(Upto(l, memory))
  {
    EntriesRoundTrip(l, memory);
    SizeIsLength(l);
    ParseFramed(EncodedItems(l), memory);
  }

  lemma EncodeFront(data: seq<Byte>)
    requires |data| >= ENTRY_HEADER && |data| >= ENTRY_HEADER + data[2]
    ensures var n := Item(Join(data[0], data[1]), data[ENTRY_HEADER..ENTRY_HEADER + data[2]]);
            Head(n) + n.data + data[ENTRY_HEADER + data[2]..] == data
  {
  }

  lemma {:induction false} EntriesAreSmall(data: seq<Byte>, memory: nat)
    ensures EntriesOf(data, memory).Entries? ==> Small(EntriesOf(data, memory).items)
    decreases |data|
  {
    if |data| >= ENTRY_HEADER && memory > 0 && |data| >= ENTRY_HEADER + data[2] {
      EntriesAreSmall(data[ENTRY_HEADER + data[2]..], memory - 1);
    }
  }

  lemma {:induction false} EntriesEncode(data: seq<Byte>, memory: nat, l: seq<Item>)
    requires EntriesOf(data, memory) == Entries(l) && |l| < memory
    ensures Small(l) && EncodedItems(l) == data
    decreases |data|
  {
    if data != [] {
      var rest := data[ENTRY_HEADER + data[2]..];
      EncodeFront(data);
      assert EntriesOf(rest, memory - 1) == Entries(l[1..]);
      EntriesEncode(rest, memory - 1, l[1..]);
      EntriesAreSmall(data, memory);
    }
  }

  /** An accepted file starts with the header for its length. */
  lemma Reframed(file: seq<Byte>)
    requires |file| >= HEADER && file[..4] == MAGIC && Join(file[4], file[5]) == |file| - HEADER
    ensures file == FileHead(|file[HEADER..]|) + file[HEADER..]
  {
  }

  lemma EncodedFrom(l: seq<Item>, data: seq<Byte>)
    requires Small(l) && Size(l) < 0x1_0000 && EncodedItems(l) == data
    ensures |data| == Size(l) && Encoded(l) == FileHead(|data|) + data
  {
    SizeIsLength(l);
  }

  /** A file that parses without running out of memory is the encoding of its items. */
  lemma SaveAfterParse(file: seq<Byte>, memory: nat, l: seq<Item>)
    requires ParsedFile(file, memory) == Parsed(l) && |l| < memory
    ensures Small(l) && Size(l) == |file| - HEADER < 0x1_0000 && Encoded(l) == file
  {
    var data := file[HEADER..];
    EntriesEncode(data, memory, l);
    SizeIsLength(l);
    EncodedFrom(l, data);
    Reframed(file);
  }

  // ------------------------------------------------- the whole operation

  lemma {:induction false} WalkIsSmall(b: seq<Item>, e: Item)
    requires Small(b) && |e.data| < 256
    ensures Small(Walk(b, e).list)
    decreases |b|
  {
    if b != [] {
      WalkIsSmall(b[1..], e);
    }
  }

  lemma {:induction false} MergeIsSmall(b: seq<Item>, es: seq<Item>)
    requires Small(b) && Small(es)
    ensures Small(Fold(b, es).list) && Small(Fold(b, es).left) && Small(Merged(b, es))
    decreases |es|
  {
    if es != [] {
      assert es[0] in es;
      WalkIsSmall(b, es[0]);
      MergeIsSmall(Walk(b, es[0]).list, es[1..]);
    }
  }

  datatype Loaded = Loaded(bytes: seq<Byte>) | Refused | Undefined

  /**
   Reading a file, merging the extra items and writing the result: what comes out
   parses as the merged list.
   */
  method LoadConfig(file: seq<Byte>, extra: seq<Item>, memory: nat) returns (r: Loaded)
    requires Small(extra)
    ensures r.Refused? <==> ParsedFile(file, memory) in {BadMagic, BadLength}
    ensures r.Loaded? <==> && ParsedFile(file, memory).Parsed?
                           && HEADER + Size(Merged(ParsedFile(file, memory).items, extra)) < 0x1_0000
    ensures r.Loaded? ==> forall m ::
              |Merged(ParsedFile(file, memory).items, extra)| <= m ==>
                ParsedFile(r.bytes, m) == Parsed(Merged(ParsedFile(file, memory).items, extra))
  {
    var p := Parse(file, memory);
    match p
    case BadMagic => r := Refused;
    case BadLength => r := Refused;
    case OutOfBounds => r := Undefined;
    case Parsed(items) =>
      var lists := new ConfigLists(items, extra);
      lists.Merge();
      EntriesAreSmall(file[HEADER..], memory);
      MergeIsSmall(items, extra);
      var s := Save(lists.configs);
      match s
      case WroteOutside => r := Undefined;
      case Saved(bytes) =>
        r := Loaded(bytes);
        forall m | |Merged(items, extra)| <= m ensures ParsedFile(bytes, m) == Parsed(Merged(items, extra)) {
          ParseAfterSave(Merged(items, extra), m);
        }
  }
}
