/** The canonical SFS1 key-group snapshot: the contiguous encoder, the validating decoder, the
    writer that fills an admitted buffer, and the iterator that borrows entries from a frame. */
module SnapshotCodec {
  import opened Bytes

  datatype Entry = Entry(key: bytes, value: bytes)

  datatype SnapshotError =
    | Truncated
    | LengthOverflow
    | BadMagic
    | UnsupportedVersion
    | WrongKeyGroup
    | CountExceedsBytes
    | TrailingBytes
    | TooLong
    | InvalidSize
    | SizeOverflow
    | ExceededAdmission
    | ChangedWhileEncoding

  /** "SFS1" */
  const MAGIC: bytes := [0x53, 0x46, 0x53, 0x31]
  const VERSION: u32 := 1

  // ---- the format ------------------------------------------------------------------------

  function EntryBytes(e: Entry): bytes {
    Le(|e.key|, 4) + e.key + Le(|e.value|, 4) + e.value
  }

  function EntrySize(e: Entry): nat {
    8 + |e.key| + |e.value|
  }

  lemma EntryLength(e: Entry)
    ensures |EntryBytes(e)| == EntrySize(e)
  {
  }

  function Body(entries: seq<Entry>): bytes {
    if entries == [] then [] else EntryBytes(entries[0]) + Body(entries[1..])
  }

  function Header(group: nat, count: nat): (r: bytes)
    ensures |r| == 16
  {
    MAGIC + Le(VERSION, 4) + Le(group, 4) + Le(count, 4)
  }

  /** The one frame that represents `entries` in key group `group`. */
  function Frame(group: nat, entries: seq<Entry>): bytes {
    Header(group, |entries|) + Body(entries)
  }

  predicate EntryFits(e: Entry) {
    |e.key| < U32 && |e.value| < U32
  }

  predicate Encodable(entries: seq<Entry>) {
    |entries| < U32 && forall i :: 0 <= i < |entries| ==> EntryFits(entries[i])
  }

  lemma {:induction false} BodyConcat(a: seq<Entry>, b: seq<Entry>)
    ensures Body(a + b) == Body(a) + Body(b)
  {
    hide EntryBytes;
    if a == [] {
      assert a + b == b;
    } else {
      BodyConcat(a[1..], b);
      var (head, tail) := (EntryBytes(a[0]), Body(a[1..]));
      TailOfConcat(a, b);
      assert Body(a + b) == head + Body(a[1..] + b);
      ConcatAssoc(head, tail, Body(b));
    }
  }

  lemma BodySnoc(a: seq<Entry>, e: Entry)
    ensures Body(a + [e]) == Body(a) + EntryBytes(e)
  {
    hide Le, FromLe;
    BodyConcat(a, [e]);
    assert Body([e]) == EntryBytes(e) + Body([]);
  }

  lemma {:induction false} BodyLength(entries: seq<Entry>)
    ensures |Body(entries)| >= 8 * |entries|
  {
    if entries == [] {
    } else {
      BodyLength(entries[1..]);
    }
  }

  lemma NoEntries()
    ensures Body([]) == []
  {
  }

  /** Appending the words of an entry to a frame appends the entry to its body. */
  lemma EntryAppended(header: bytes, front: seq<Entry>, e: Entry)
    requires EntryFits(e)
    ensures header + Body(front) + Le(|e.key|, 4) + e.key + Le(|e.value|, 4) + e.value == header + Body(front + [e])
  {
    hide Le, Body;
    BodySnoc(front, e);
    var (k, v) := (Le(|e.key|, 4), Le(|e.value|, 4));
    var output := header + Body(front);
    assert EntryBytes(e) == k + e.key + v + e.value;
    assert output + k + e.key + v + e.value == output + (k + e.key + v + e.value);
    ConcatAssoc(header, Body(front), EntryBytes(e));
  }

  // ---- encoder ---------------------------------------------------------------------------

  /** `encode_key_group_snapshot`: length words are checked as they are written. */
  method EncodeKeyGroupSnapshot(group: u32, entries: seq<Entry>)
    returns (result: Result<bytes, SnapshotError>)
    ensures result == if Encodable(entries) then Ok(Frame(group, entries)) else Err(TooLong)
  {
    hide Le, FromLe, Body, EntryBytes;
    var output := MAGIC + Le(VERSION, 4) + Le(group, 4);
    if |entries| >= U32 {
      return Err(TooLong);
    }
    output := output + Le(|entries|, 4);
    assert Body(entries[..0]) == [] by { NoEntries(); }
    for i := 0 to |entries|
      invariant output == Header(group, |entries|) + Body(entries[..i])
      invariant forall j :: 0 <= j < i ==> EntryFits(entries[j])
    {
      var e := entries[i];
      if |e.key| >= U32 {
        return Err(TooLong);
      }
      output := output + Le(|e.key|, 4) + e.key;
      if |e.value| >= U32 {
        return Err(TooLong);
      }
      output := output + Le(|e.value|, 4) + e.value;
      EntryAppended(Header(group, |entries|), entries[..i], e);
      assert entries[..i + 1] == entries[..i] + [e];
    }
    assert entries[..|entries|] == entries;
    return Ok(output);
  }

  // ---- cursor reads ----------------------------------------------------------------------

  function TakeExact(s: slice, offset: nat, len: nat): Result<bytes, SnapshotError>
    requires offset <= |s|
  {
    if offset + len > USIZE_MAX then Err(LengthOverflow)
    else if offset + len > |s| then Err(Truncated)
    else Ok(s[offset..offset + len])
  }

  function TakeU32(s: slice, offset: nat): Result<nat, SnapshotError>
    requires offset <= |s|
  {
    match TakeExact(s, offset, 4)
    case Err(e) => Err(e)
    case Ok(word) => Ok(FromLe(word))
  }

  /** A length word and that many bytes. */
  function TakeBytes(s: slice, offset: nat): Result<bytes, SnapshotError>
    requires offset <= |s|
  {
    match TakeU32(s, offset)
    case Err(e) => Err(e)
    case Ok(len) => TakeExact(s, offset + 4, len)
  }

  /** A key and a value, each behind its length word. */
  function TakeEntry(s: slice, offset: nat): (r: Result<Entry, SnapshotError>)
    requires offset <= |s|
    ensures r.Ok? ==> offset + EntrySize(r.value) <= |s|
  {
    match TakeBytes(s, offset)
    case Err(e) => Err(e)
    case Ok(key) =>
      match TakeBytes(s, offset + 4 + |key|)
      case Err(e) => Err(e)
      case Ok(value) => Ok(Entry(key, value))
  }

  datatype Parsed = Parsed(entries: seq<Entry>, end: nat)

  /** `count` entries read from `offset`, and the offset after them. */
  function TakeEntries(s: slice, offset: nat, count: nat): (r: Result<Parsed, SnapshotError>)
    requires offset <= |s|
    ensures r.Ok? ==> offset <= r.value.end <= |s| && |r.value.entries| == count
    decreases count
  {
    if count == 0 then Ok(Parsed([], offset))
    else match TakeEntry(s, offset)
      case Err(e) => Err(e)
      case Ok(e) => Prepend([e], TakeEntries(s, offset + EntrySize(e), count - 1))
  }

  function Prepend(seen: seq<Entry>, rest: Result<Parsed, SnapshotError>): Result<Parsed, SnapshotError> {
    match rest
    case Err(e) => Err(e)
    case Ok(p) => Ok(Parsed(seen + p.entries, p.end))
  }

  /** `validate_key_group_snapshot` as a function: the checks in the order they are made. */
  function Validate(group: u32, s: slice): Result<nat, SnapshotError> {
    match TakeExact(s, 0, 4)
    case Err(e) => Err(e)
    case Ok(magic) =>
      if magic != MAGIC then Err(BadMagic) else
      match TakeU32(s, 4)
      case Err(e) => Err(e)
      case Ok(version) =>
        if version != VERSION then Err(UnsupportedVersion) else
        match TakeU32(s, 8)
        case Err(e) => Err(e)
        case Ok(actual) =>
          if actual != group then Err(WrongKeyGroup) else
          match TakeU32(s, 12)
          case Err(e) => Err(e)
          case Ok(count) => ValidateBody(s, count)
  }

  function ValidateBody(s: slice, count: nat): Result<nat, SnapshotError>
    requires 16 <= |s|
  {
    if count > (|s| - 16) / 8 then Err(CountExceedsBytes) else
    match TakeEntries(s, 16, count)
    case Err(e) => Err(e)
    case Ok(p) => if p.end != |s| then Err(TrailingBytes) else Ok(count)
  }

  function Decode(group: u32, s: slice): Result<seq<Entry>, SnapshotError> {
    match Validate(group, s)
    case Err(e) => Err(e)
    case Ok(count) =>
      match TakeEntries(s, 16, count)
      case Err(e) => Err(e)
      case Ok(p) => Ok(p.entries)
  }

  // ---- what a successful read means ------------------------------------------------------

  lemma TakeBytesSound(s: slice, offset: nat)
    requires offset <= |s| && TakeBytes(s, offset).Ok?
    ensures var b := TakeBytes(s, offset).value;
      && offset + 4 + |b| <= |s| && |b| < U32
      && s[offset..offset + 4 + |b|] == Le(|b|, 4) + b
  {
    hide Le, FromLe;
    var b := TakeBytes(s, offset).value;
    FromLe4(s[offset..offset + 4]);
    assert s[offset..offset + 4 + |b|] == s[offset..offset + 4] + s[offset + 4..offset + 4 + |b|];
  }

  lemma WordThenBytes(s: bytes, offset: nat, word: bytes, b: bytes)
    requires |word| == 4 && offset + 4 + |b| <= |s| && s[offset..offset + 4 + |b|] == word + b
    ensures s[offset..offset + 4] == word && s[offset + 4..offset + 4 + |b|] == b
  {
    ConcatSlices(word, b);
    SubSlice(s, offset, offset + 4 + |b|, 0, 4);
    SubSlice(s, offset, offset + 4 + |b|, 4, 4 + |b|);
  }

  lemma TakeBytesComplete(s: slice, offset: nat, b: bytes)
    requires |b| < U32 && offset + 4 + |b| <= |s|
    requires s[offset..offset + 4 + |b|] == Le(|b|, 4) + b
    ensures TakeBytes(s, offset) == Ok(b)
  {
    hide Le, TakeBytes;
    WordThenBytes(s, offset, Le(|b|, 4), b);
    TakeBytesFrom(s, offset, b);
  }

  lemma TakeBytesFrom(s: slice, offset: nat, b: bytes)
    requires |b| < U32 && offset + 4 + |b| <= |s|
    requires s[offset..offset + 4] == Le(|b|, 4) && s[offset + 4..offset + 4 + |b|] == b
    ensures TakeBytes(s, offset) == Ok(b)
  {
    hide Le, FromLe, TakeU32;
    TakeU32Complete(s, offset, |b|);
  }

  lemma TakeU32Complete(s: slice, offset: nat, n: nat)
    requires n < U32 && offset + 4 <= |s| && s[offset..offset + 4] == Le(n, 4)
    ensures TakeU32(s, offset) == Ok(n)
  {
    hide Le, FromLe;
    Le4(n);
  }

  lemma TakeEntrySound(s: slice, offset: nat)
    requires offset <= |s| && TakeEntry(s, offset).Ok?
    ensures var e := TakeEntry(s, offset).value;
      EntryFits(e) && s[offset..offset + EntrySize(e)] == EntryBytes(e)
  {
    hide Le, FromLe, TakeBytes;
    var e := TakeEntry(s, offset).value;
    var middle := offset + 4 + |e.key|;
    TakeBytesSound(s, offset);
    TakeBytesSound(s, middle);
    JoinSlices(s, offset, middle, offset + EntrySize(e));
  }

  lemma TakeEntryComplete(s: slice, offset: nat, e: Entry)
    requires EntryFits(e) && offset + EntrySize(e) <= |s|
    requires s[offset..offset + EntrySize(e)] == EntryBytes(e)
    ensures TakeEntry(s, offset) == Ok(e)
  {
    hide Le, FromLe, TakeBytes;
    var (key, value) := (Le(|e.key|, 4) + e.key, Le(|e.value|, 4) + e.value);
    var (middle, end) := (offset + |key|, offset + |key| + |value|);
    assert s[offset..middle] == key && s[middle..end] == value by {
      assert EntryBytes(e) == key + value;
      SubSlice(s, offset, end, 0, |key|);
      SubSlice(s, offset, end, |key|, end - offset);
      ConcatSlices(key, value);
    }
    TakeBytesComplete(s, offset, e.key);
    TakeBytesComplete(s, middle, e.value);
  }

  lemma {:induction false} TakeEntriesSound(s: slice, offset: nat, count: nat)
    requires offset <= |s| && TakeEntries(s, offset, count).Ok?
    ensures var p := TakeEntries(s, offset, count).value;
      && s[offset..p.end] == Body(p.entries)
      && forall i :: 0 <= i < count ==> EntryFits(p.entries[i])
    decreases count
  {
    hide TakeEntry, EntryBytes;
    if count == 0 {
    } else {
      var e := TakeEntry(s, offset).value;
      TakeEntrySound(s, offset);
      var next := offset + EntrySize(e);
      TakeEntriesSound(s, next, count - 1);
      var rest := TakeEntries(s, next, count - 1).value;
      assert TakeEntries(s, offset, count).value == Parsed([e] + rest.entries, rest.end);
      assert ([e] + rest.entries)[1..] == rest.entries;
      JoinSlices(s, offset, next, rest.end);
    }
  }

  lemma {:induction false} TakeEntriesComplete(s: slice, offset: nat, entries: seq<Entry>)
    requires offset + |Body(entries)| <= |s|
    requires s[offset..offset + |Body(entries)|] == Body(entries)
    requires forall i :: 0 <= i < |entries| ==> EntryFits(entries[i])
    ensures TakeEntries(s, offset, |entries|) == Ok(Parsed(entries, offset + |Body(entries)|))
    decreases |entries|
  {
    hide EntryBytes, TakeEntry;
    if entries == [] {
    } else {
      var (head, rest) := (EntryBytes(entries[0]), Body(entries[1..]));
      EntryLength(entries[0]);
      var (next, end) := (offset + |head|, offset + |Body(entries)|);
      assert s[offset..next] == head && s[next..end] == rest by {
        SubSlice(s, offset, end, 0, |head|);
        SubSlice(s, offset, end, |head|, end - offset);
        ConcatSlices(head, rest);
      }
      TakeEntryComplete(s, offset, entries[0]);
      TakeEntriesComplete(s, next, entries[1..]);
      assert TakeEntries(s, next, |entries| - 1) == Ok(Parsed(entries[1..], end));
      assert entries == [entries[0]] + entries[1..];
    }
  }

  lemma HeaderFromWords(s: slice, group: nat, count: nat)
    requires 16 <= |s| && s[0..4] == MAGIC
    requires FromLe(s[4..8]) == VERSION && FromLe(s[8..12]) == group && FromLe(s[12..16]) == count
    ensures s[..16] == Header(group, count) && count < U32
  {
    hide Le, FromLe;
    FromLe4(s[4..8]);
    FromLe4(s[8..12]);
    FromLe4(s[12..16]);
    assert s[..16] == s[0..4] + s[4..8] + s[8..12] + s[12..16];
  }

  lemma HeaderSlices(group: nat, count: nat)
    ensures var h := Header(group, count);
      h[..4] == MAGIC && h[4..8] == Le(VERSION, 4) && h[8..12] == Le(group, 4) && h[12..16] == Le(count, 4)
  {
    hide Le, FromLe;
    var (a, b, c) := (Le(VERSION, 4), Le(group, 4), Le(count, 4));
    assert Header(group, count) == MAGIC + (a + (b + c));
    ConcatSlices(MAGIC, a + (b + c));
    ConcatSlices(a, b + c);
    ConcatSlices(b, c);
    SubSlice(Header(group, count), 4, 16, 0, 4);
    SubSlice(Header(group, count), 4, 16, 4, 8);
    SubSlice(Header(group, count), 4, 16, 8, 12);
    SubSlice(a + (b + c), 4, 12, 0, 4);
    SubSlice(a + (b + c), 4, 12, 4, 8);
  }

  lemma HeaderInjective(group: u32, count: u32, other: u32, more: u32)
    requires Header(group, count) == Header(other, more)
    ensures group == other && count == more
  {
    hide Le, FromLe;
    HeaderSlices(group, count);
    HeaderSlices(other, more);
    Le4(group); Le4(other); Le4(count); Le4(more);
  }

  // ---- the bijection ---------------------------------------------------------------------

  /** Decoding inverts encoding. */
  lemma DecodeInvertsEncode(group: u32, entries: seq<Entry>)
    requires Encodable(entries) && |Frame(group, entries)| <= ISIZE_MAX
    ensures Validate(group, Frame(group, entries)) == Ok(|entries|)
    ensures Decode(group, Frame(group, entries)) == Ok(entries)
  {
    var s: slice := Frame(group, entries);
    HeaderSlices(group, |entries|);
    assert s[0..4] == Header(group, |entries|)[..4];
    assert s[4..8] == Header(group, |entries|)[4..8];
    assert s[8..12] == Header(group, |entries|)[8..12];
    assert s[12..16] == Header(group, |entries|)[12..16];
    Le4(VERSION); Le4(group); Le4(|entries|);
    BodyLength(entries);
    assert s[16..16 + |Body(entries)|] == Body(entries);
    TakeEntriesComplete(s, 16, entries);
  }

  /** A frame with anything behind it parses to its entries and is refused for the rest; a frame
      of another key group is refused before its entries are read. */
  lemma RefusalsAreNamed(group: u32, entries: seq<Entry>, extra: bytes, other: u32)
    requires Encodable(entries) && |Frame(group, entries) + extra| <= ISIZE_MAX
    ensures extra != [] ==> Validate(group, Frame(group, entries) + extra) == Err(TrailingBytes)
    ensures other != group ==> Validate(other, Frame(group, entries) + extra) == Err(WrongKeyGroup)
  {
    hide TakeEntries, Le, FromLe, Header;
    var s: slice := Frame(group, entries) + extra;
    HeaderSlices(group, |entries|);
    assert s[0..4] == Header(group, |entries|)[..4];
    assert s[4..8] == Header(group, |entries|)[4..8];
    assert s[8..12] == Header(group, |entries|)[8..12];
    assert s[12..16] == Header(group, |entries|)[12..16];
    Le4(VERSION); Le4(group); Le4(|entries|);
    BodyLength(entries);
    assert s[16..16 + |Body(entries)|] == Body(entries);
    TakeEntriesComplete(s, 16, entries);
  }

  lemma {:induction false} EntriesTruncate(s: slice, offset: nat, count: nat)
    requires offset <= |s|
    ensures TakeEntries(s, offset, count).Err? ==> TakeEntries(s, offset, count).error == Truncated
    decreases count
  {
    hide TakeEntry;
    if count == 0 {
    } else {
      EntryTruncates(s, offset);
      if TakeEntry(s, offset).Ok? {
        EntriesTruncate(s, offset + EntrySize(TakeEntry(s, offset).value), count - 1);
      }
    }
  }

  lemma EntryTruncates(s: slice, offset: nat)
    requires offset <= |s|
    ensures TakeEntry(s, offset).Err? ==> TakeEntry(s, offset).error == Truncated
  {
    hide TakeBytes;
    BytesTruncate(s, offset);
    if TakeBytes(s, offset).Ok? {
      TakeBytesSound(s, offset);
      BytesTruncate(s, offset + 4 + |TakeBytes(s, offset).value|);
    }
  }

  /** No length word reaches the arithmetic limit: what does not fit is cut short. */
  lemma BytesTruncate(s: slice, offset: nat)
    requires offset <= |s|
    ensures TakeBytes(s, offset).Err? ==> TakeBytes(s, offset).error == Truncated
  {
    hide FromLe;
    if offset + 4 <= |s| {
      FromLe4(s[offset..offset + 4]);
    }
  }

  /** Which refusal the header of a frame draws, byte for byte. */
  lemma HeaderDecides(group: u32, s: slice)
    ensures Validate(group, s) == Err(BadMagic) <==> 4 <= |s| && s[..4] != [0x53, 0x46, 0x53, 0x31]
    ensures Validate(group, s) == Err(UnsupportedVersion) <==>
              8 <= |s| && s[..4] == [0x53, 0x46, 0x53, 0x31] && s[4..8] != [1, 0, 0, 0]
    ensures Validate(group, s) == Err(WrongKeyGroup) <==>
              12 <= |s| && s[..4] == [0x53, 0x46, 0x53, 0x31] && s[4..8] == [1, 0, 0, 0] && s[8..12] != Le(group, 4)
    ensures Validate(group, s) == Err(CountExceedsBytes) <==>
              && 16 <= |s| && s[..4] == [0x53, 0x46, 0x53, 0x31] && s[4..8] == [1, 0, 0, 0]
              && s[8..12] == Le(group, 4) && 16 + 8 * FromLe(s[12..16]) > |s|
  {
    hide Le, FromLe, TakeEntries, TakeBytes;
    if 4 <= |s| {
      assert s[..4] == s[0..4];
    }
    if 8 <= |s| {
      SmallWord(1);
      WordIs(s[4..8], 1);
    }
    if 12 <= |s| {
      WordIs(s[8..12], group);
    }
    if 16 <= |s| {
      EntriesTruncate(s, 16, FromLe(s[12..16]));
    }
  }

  lemma WordIs(word: bytes, n: nat)
    requires |word| == 4 && n < U32
    ensures FromLe(word) == n <==> word == Le(n, 4)
  {
    hide Le, FromLe;
    FromLe4(word);
    Le4(n);
  }

  /** Re-encoding whatever was accepted gives back the same bytes. */
  lemma EncodeInvertsDecode(group: u32, s: slice)
    requires Validate(group, s).Ok?
    ensures Decode(group, s).Ok?
    ensures Encodable(Decode(group, s).value)
    ensures |Decode(group, s).value| == Validate(group, s).value
    ensures s == Frame(group, Decode(group, s).value)
  {
    hide TakeEntries, TakeBytes, Body, Le, FromLe, Header;
    var count := Validate(group, s).value;
    var p := TakeEntries(s, 16, count).value;
    assert s[16..] == Body(p.entries) && forall i :: 0 <= i < count ==> EntryFits(p.entries[i]) by {
      TakeEntriesSound(s, 16, count);
      assert s[16..p.end] == s[16..];
    }
    HeaderFromWords(s, group, count);
    assert s == s[..16] + s[16..];
  }

  /** The accepted byte strings are exactly the frames of encodable entry lists. */
  lemma AcceptsExactlyFrames(group: u32, s: slice)
    ensures Validate(group, s).Ok? <==> exists entries :: Encodable(entries) && s == Frame(group, entries)
    ensures Decode(group, s).Ok? <==> Validate(group, s).Ok?
  {
    if Validate(group, s).Ok? {
      EncodeInvertsDecode(group, s);
    }
    if entries :| Encodable(entries) && s == Frame(group, entries) {
      DecodeInvertsEncode(group, entries);
    }
  }

  /** No accepted frame is a proper prefix of another, whatever groups the two belong to. */
  lemma PrefixFree(group: u32, s: slice, other: u32, t: slice)
    requires Validate(group, s).Ok? && Validate(other, t).Ok?
    requires s <= t
    ensures s == t && group == other
  {
    hide Le, FromLe, Body, TakeEntries, Header;
    EncodeInvertsDecode(group, s);
    EncodeInvertsDecode(other, t);
    var entries := Decode(group, s).value;
    var more := Decode(other, t).value;
    assert Header(group, |entries|) == s[..16] && s[16..] == Body(entries) by {
      ConcatSlices(Header(group, |entries|), Body(entries));
    }
    assert Header(other, |more|) == t[..16] by {
      ConcatSlices(Header(other, |more|), Body(more));
    }
    assert s[..16] == t[..16];
    HeaderInjective(group, |entries|, other, |more|);
    assert t[16..16 + |Body(entries)|] == s[16..];
    TakeEntriesComplete(t, 16, entries);
  }

  // ---- the decoder's own code ------------------------------------------------------------

  /** `SnapshotInput`: a cursor over borrowed bytes. */
  class SnapshotInput {
    const data: slice
    var offset: nat

    ghost predicate Valid()
      reads this
    {
      offset <= |data|
    }

    constructor (data: slice, offset: nat)
      requires offset <= |data|
      ensures Valid() && this.data == data && this.offset == offset
    {
      this.data := data;
      this.offset := offset;
    }

    method ReadExact(len: nat) returns (r: Result<bytes, SnapshotError>)
      requires Valid()
      modifies this
      ensures Valid() && r == TakeExact(data, old(offset), len)
      ensures offset == if r.Ok? then old(offset) + len else old(offset)
    {
      if offset + len > USIZE_MAX {
        return Err(LengthOverflow);
      }
      var end := offset + len;
      if end > |data| {
        return Err(Truncated);
      }
      r := Ok(data[offset..end]);
      offset := end;
    }

    method ReadU32() returns (r: Result<nat, SnapshotError>)
      requires Valid()
      modifies this
      ensures Valid() && r == TakeU32(data, old(offset))
      ensures offset == if r.Ok? then old(offset) + 4 else old(offset)
    {
      var word := ReadExact(4);
      match word {
        case Err(e) => r := Err(e);
        case Ok(w) => r := Ok(FromLe(w));
      }
    }

    method ReadBytes() returns (r: Result<bytes, SnapshotError>)
      requires Valid()
      modifies this
      ensures Valid() && r == TakeBytes(data, old(offset))
      ensures r.Ok? ==> offset == old(offset) + 4 + |r.value|
    {
      var len := ReadU32();
      match len {
        case Err(e) => r := Err(e);
        case Ok(n) => r := ReadExact(n);
      }
    }

    method ReadEntry() returns (r: Result<Entry, SnapshotError>)
      requires Valid()
      modifies this
      ensures Valid() && r == TakeEntry(data, old(offset))
      ensures r.Ok? ==> offset == old(offset) + EntrySize(r.value)
    {
      var key := ReadBytes();
      if key.Err? { return Err(key.error); }
      var value := ReadBytes();
      if value.Err? { return Err(value.error); }
      return Ok(Entry(key.value, value.value));
    }
  }

  lemma PrependPrepend(a: seq<Entry>, b: seq<Entry>, rest: Result<Parsed, SnapshotError>)
    ensures Prepend(a, Prepend(b, rest)) == Prepend(a + b, rest)
  {
    if rest.Ok? {
      assert a + (b + rest.value.entries) == (a + b) + rest.value.entries;
    }
  }

  lemma PrependNothing(rest: Result<Parsed, SnapshotError>)
    ensures Prepend([], rest) == rest
  {
    if rest.Ok? {
      assert [] + rest.value.entries == rest.value.entries;
    }
  }

  method ValidateKeyGroupSnapshot(group: u32, s: slice) returns (r: Result<nat, SnapshotError>)
    ensures r == Validate(group, s)
    ensures r.Ok? <==> exists entries :: Encodable(entries) && s == Frame(group, entries)
  {
    hide Le, FromLe, TakeEntry;
    AcceptsExactlyFrames(group, s);
    var input := new SnapshotInput(s, 0);
    var magic := input.ReadExact(4);
    if magic.Err? { return Err(magic.error); }
    if magic.value != MAGIC { return Err(BadMagic); }
    var version := input.ReadU32();
    if version.Err? { return Err(version.error); }
    if version.value != VERSION { return Err(UnsupportedVersion); }
    var actual := input.ReadU32();
    if actual.Err? { return Err(actual.error); }
    if actual.value != group { return Err(WrongKeyGroup); }
    var counted := input.ReadU32();
    if counted.Err? { return Err(counted.error); }
    var count := counted.value;
    if count > (|s| - 16) / 8 { return Err(CountExceedsBytes); }
    ghost var seen: seq<Entry> := [];
    PrependNothing(TakeEntries(s, 16, count));
    for i := 0 to count
      invariant input.Valid() && input.data == s
      invariant TakeEntries(s, 16, count) == Prepend(seen, TakeEntries(s, input.offset, count - i))
    {
      var entry := input.ReadEntry();
      if entry.Err? { return Err(entry.error); }
      PrependPrepend(seen, [entry.value], TakeEntries(s, input.offset, count - i - 1));
      seen := seen + [entry.value];
    }
    if input.offset != |s| { return Err(TrailingBytes); }
    return Ok(count);
  }

  method DecodeKeyGroupSnapshot(group: u32, s: slice) returns (r: Result<seq<Entry>, SnapshotError>)
    ensures r == Decode(group, s)
    ensures r.Ok? ==> Encodable(r.value) && s == Frame(group, r.value)
  {
    hide Le, FromLe, TakeEntry, Header, Body, Validate;
    var validated := ValidateKeyGroupSnapshot(group, s);
    if validated.Err? { return Err(validated.error); }
    EncodeInvertsDecode(group, s);
    var count := validated.value;
    var input := new SnapshotInput(s, 16);
    var entries: seq<Entry> := [];
    PrependNothing(TakeEntries(s, 16, count));
    for i := 0 to count
      invariant input.Valid() && input.data == s
      invariant TakeEntries(s, 16, count) == Prepend(entries, TakeEntries(s, input.offset, count - i))
    {
      var entry := input.ReadEntry();
      assert entry.Ok?; // the frame was validated
      PrependPrepend(entries, [entry.value], TakeEntries(s, input.offset, count - i - 1));
      entries := entries + [entry.value];
    }
    assert entries + [] == entries;
    return Ok(entries);
  }

  // ---- the borrowed iterator -------------------------------------------------------------

  /** `Entries`: walks a frame that was validated before the iterator was handed out. */
  class Entries {
    const input: SnapshotInput
    var remaining: nat

    ghost predicate Valid()
      reads this, input
    {
      input.Valid() && TakeEntries(input.data, input.offset, remaining).Ok?
    }

    /** The entries still to be yielded. */
    ghost function Rest(): seq<Entry>
      requires Valid()
      reads this, input
    {
      TakeEntries(input.data, input.offset, remaining).value.entries
    }

    constructor (group: u32, s: slice)
      requires Validate(group, s).Ok?
      ensures Valid() && fresh(input)
      ensures Rest() == Decode(group, s).value && remaining == |Rest()|
    {
      input := new SnapshotInput(s, 16);
      remaining := Validate(group, s).value;
    }

    /** Never reaches an `expect` failure, and yields the next decoded entry. */
    method Next() returns (item: Option<Entry>)
      requires Valid()
      modifies this, input
      ensures Valid()
      ensures item.None? <==> old(Rest()) == []
      ensures item.None? ==> Rest() == []
      ensures item.Some? ==> old(Rest()) == [item.value] + Rest()
    {
      if remaining == 0 {
        return None;
      }
      hide TakeEntry;
      var entry := input.ReadEntry();
      assert entry.Ok?;
      remaining := remaining - 1;
      return Some(entry.value);
    }
  }

  /** `key_group_snapshot_entries` followed by a full drain: what the iterator yields is what
      the copying decoder returns. */
  method CollectEntries(group: u32, s: slice) returns (r: Result<seq<Entry>, SnapshotError>)
    ensures r == Decode(group, s)
  {
    hide Le, FromLe, TakeEntry, Header, Body, Validate;
    var validated := ValidateKeyGroupSnapshot(group, s);
    if validated.Err? { return Err(validated.error); }
    var entries := new Entries(group, s);
    var collected := Drain(entries);
    EncodeInvertsDecode(group, s);
    return Ok(collected);
  }

  method Drain(entries: Entries) returns (collected: seq<Entry>)
    requires entries.Valid()
    modifies entries, entries.input
    ensures entries.Valid() && entries.Rest() == [] && collected == old(entries.Rest())
  {
    hide TakeEntries;
    collected := [];
    ghost var all := entries.Rest();
    var item := entries.Next();
    while item.Some?
      invariant entries.Valid()
      invariant all == if item.Some? then collected + [item.value] + entries.Rest() else collected
      invariant item.None? ==> entries.Rest() == []
      decreases item.Some?, |entries.Rest()|
    {
      collected := collected + [item.value];
      ghost var rest := entries.Rest();
      item := entries.Next();
      assert collected + rest == all;
      if item.Some? {
        ConcatAssoc(collected, [item.value], entries.Rest());
      }
    }
  }

  // ---- the admitted writer ---------------------------------------------------------------

  datatype WriterState = WriterState(output: bytes, expected: usize, remaining: u32)

  function WriterNew(group: u32, count: nat, size: usize): Result<WriterState, SnapshotError> {
    if count >= U32 then Err(TooLong)
    else if size < 16 || (size - 16) / 8 < count then Err(InvalidSize)
    else Ok(WriterState(Header(group, count), size, count))
  }

  function WriterAppend(w: WriterState, e: Entry): Result<WriterState, SnapshotError> {
    if !EntryFits(e) then Err(TooLong)
    else
      var end := |w.output| + 8 + |e.key| + |e.value|;
      if end > USIZE_MAX then Err(SizeOverflow)
      else if w.remaining == 0 || end > w.expected then Err(ExceededAdmission)
      else Ok(w.(output := w.output + EntryBytes(e), remaining := w.remaining - 1))
  }

  function WriterFinish(w: WriterState): Result<bytes, SnapshotError> {
    if w.remaining != 0 || |w.output| != w.expected then Err(ChangedWhileEncoding) else Ok(w.output)
  }

  class SnapshotWriter {
    var output: bytes
    var expected: usize
    var remaining: u32

    ghost function State(): WriterState
      reads this
    {
      WriterState(output, expected, remaining)
    }

    /** `SnapshotWriter::new` after its header check has passed. */
    constructor (group: u32, count: nat, size: usize)
      requires WriterNew(group, count, size).Ok?
      ensures State() == WriterNew(group, count, size).value
    {
      output := Header(group, count);
      expected := size;
      remaining := count;
    }

    /** A rejected append leaves the writer as it was. */
    method Append(key: bytes, value: bytes) returns (r: Result<(), SnapshotError>)
      modifies this
      ensures match WriterAppend(old(State()), Entry(key, value))
              case Ok(next) => r == Ok(()) && State() == next
              case Err(e) => r == Err(e) && State() == old(State())
    {
      if |key| >= U32 || |value| >= U32 {
        return Err(TooLong);
      }
      var end := |output| + 8 + |key| + |value|;
      if end > USIZE_MAX {
        return Err(SizeOverflow);
      }
      if remaining == 0 || end > expected {
        return Err(ExceededAdmission);
      }
      ghost var before := output;
      output := output + Le(|key|, 4);
      output := output + key;
      output := output + Le(|value|, 4);
      output := output + value;
      assert output == before + EntryBytes(Entry(key, value));
      remaining := remaining - 1;
      return Ok(());
    }

    method Finish() returns (r: Result<bytes, SnapshotError>)
      ensures r == WriterFinish(State())
    {
      if remaining != 0 || |output| != expected {
        return Err(ChangedWhileEncoding);
      }
      return Ok(output);
    }
  }

  /** The writer after offering `offered` in order, keeping those it accepted. */
  function WriterRun(w: WriterState, offered: seq<Entry>): (WriterState, seq<Entry>)
    decreases |offered|
  {
    if offered == [] then (w, [])
    else match WriterAppend(w, offered[0])
      case Err(_) => WriterRun(w, offered[1..])
      case Ok(next) =>
        var (last, accepted) := WriterRun(next, offered[1..]);
        (last, [offered[0]] + accepted)
  }

  lemma {:induction false} WriterRunExtends(w: WriterState, offered: seq<Entry>)
    ensures var (last, accepted) := WriterRun(w, offered);
      && last.output == w.output + Body(accepted)
      && last.expected == w.expected
      && last.remaining == w.remaining - |accepted|
      && forall i :: 0 <= i < |accepted| ==> EntryFits(accepted[i])
    decreases |offered|
  {
    if offered == [] {
      assert w.output + [] == w.output;
    } else {
      match WriterAppend(w, offered[0])
      case Err(_) => WriterRunExtends(w, offered[1..]);
      case Ok(next) =>
        WriterRunExtends(next, offered[1..]);
        var (last, rest) := WriterRun(next, offered[1..]);
        var accepted := [offered[0]] + rest;
        assert accepted[1..] == rest;
        assert Body(accepted) == EntryBytes(offered[0]) + Body(rest);
        assert w.output + EntryBytes(offered[0]) + Body(rest) == w.output + (EntryBytes(offered[0]) + Body(rest));
    }
  }

  /** Whatever is offered, the writer never holds more bytes or entries than were admitted. */
  lemma {:induction false} WriterNeverExceeds(w: WriterState, offered: seq<Entry>)
    requires |w.output| <= w.expected
    ensures var (last, accepted) := WriterRun(w, offered);
      |last.output| <= last.expected == w.expected && |accepted| <= w.remaining
    decreases |offered|
  {
    hide Le;
    if offered == [] {
    } else {
      match WriterAppend(w, offered[0])
      case Err(_) => WriterNeverExceeds(w, offered[1..]);
      case Ok(next) =>
        EntryLength(offered[0]);
        WriterNeverExceeds(next, offered[1..]);
    }
  }

  /** An append is refused exactly when the entry is too long to encode, none is left to write, or
      it would exceed the admitted bytes. */
  lemma AppendIsExact(w: WriterState, e: Entry)
    ensures WriterAppend(w, e).Ok? <==>
              EntryFits(e) && w.remaining > 0 && |w.output| + |EntryBytes(e)| <= w.expected
    ensures WriterAppend(w, e).Ok? ==>
              WriterAppend(w, e).value == WriterState(w.output + EntryBytes(e), w.expected, w.remaining - 1)
  {
    hide Le;
    EntryLength(e);
  }

  /** A writer starts exactly when the count fits its word and the admitted size holds the header
      and the length words of that many entries. */
  lemma WriterStartsExactly(group: u32, count: nat, size: usize)
    ensures WriterNew(group, count, size).Ok? <==> count < U32 && 16 + 8 * count <= size
    ensures WriterNew(group, count, size).Ok? ==>
              WriterNew(group, count, size).value == WriterState(Frame(group, [])[..12] + Le(count, 4), size, count)
  {
    hide Le;
    assert Body([]) == [];
    var h := Header(group, 0);
    assert (h + [])[..12] == MAGIC + Le(VERSION, 4) + Le(group, 4);
  }

  /** After any run of appends, `finish` succeeds exactly when the accepted entries have the
      admitted count and size, and then returns their canonical frame. */
  lemma WriterAgreesWithEncoder(group: u32, count: nat, size: usize, offered: seq<Entry>)
    requires WriterNew(group, count, size).Ok?
    ensures var (last, accepted) := WriterRun(WriterNew(group, count, size).value, offered);
      && (WriterFinish(last).Ok? <==> |accepted| == count && |Frame(group, accepted)| == size)
      && (WriterFinish(last).Ok? ==> Encodable(accepted) && WriterFinish(last).value == Frame(group, accepted))
  {
    WriterRunExtends(WriterNew(group, count, size).value, offered);
  }

  /** With an exact admission nothing is refused. */
  lemma {:induction false} ExactAdmissionAccepts(w: WriterState, entries: seq<Entry>)
    requires |entries| <= w.remaining && forall i :: 0 <= i < |entries| ==> EntryFits(entries[i])
    requires |w.output| + |Body(entries)| <= w.expected
    ensures WriterRun(w, entries).1 == entries
    decreases |entries|
  {
    if entries == [] {
    } else {
      ExactAdmissionAccepts(WriterAppend(w, entries[0]).value, entries[1..]);
      assert entries == [entries[0]] + entries[1..];
    }
  }

  /** Writing `entries` into a buffer admitted for exactly them reproduces the contiguous encoding. */
  lemma WriterReproducesFrame(group: u32, entries: seq<Entry>)
    requires Encodable(entries) && |Frame(group, entries)| <= USIZE_MAX
    ensures var size := |Frame(group, entries)|;
      && WriterNew(group, |entries|, size).Ok?
      && var (last, accepted) := WriterRun(WriterNew(group, |entries|, size).value, entries);
         accepted == entries && WriterFinish(last) == Ok(Frame(group, entries))
  {
    BodyLength(entries);
    var size := |Frame(group, entries)|;
    ExactAdmissionAccepts(WriterNew(group, |entries|, size).value, entries);
    WriterAgreesWithEncoder(group, |entries|, size, entries);
  }

  /** The bytes of one small snapshot, spelled out: group 7 holding "one" under "a". */
  lemma StableFixture()
    ensures Frame(7, [Entry([0x61], [0x6f, 0x6e, 0x65])]) ==
              [0x53, 0x46, 0x53, 0x31, 1, 0, 0, 0, 7, 0, 0, 0, 1, 0, 0, 0,
               1, 0, 0, 0, 0x61, 3, 0, 0, 0, 0x6f, 0x6e, 0x65]
  {
    hide Header, EntryBytes;
    var e := Entry([0x61], [0x6f, 0x6e, 0x65]);
    FixtureHeader();
    FixtureEntry();
    assert Body([e]) == EntryBytes(e) by {
      assert [e][1..] == [];
    }
  }

  lemma FixtureHeader()
    ensures Header(7, 1) == [0x53, 0x46, 0x53, 0x31, 1, 0, 0, 0, 7, 0, 0, 0, 1, 0, 0, 0]
  {
    hide Le;
    SmallWord(1);
    SmallWord(7);
  }

  lemma FixtureEntry()
    ensures EntryBytes(Entry([0x61], [0x6f, 0x6e, 0x65])) == [1, 0, 0, 0, 0x61, 3, 0, 0, 0, 0x6f, 0x6e, 0x65]
  {
    hide Le;
    SmallWord(1);
    SmallWord(3);
  }

  lemma SmallWord(n: nat)
    requires n < 256
    ensures Le(n, 4) == [n, 0, 0, 0]
  {
    assert Le(0, 3) == [0, 0, 0] by { assert Le(0, 1) == [0]; }
  }
}
