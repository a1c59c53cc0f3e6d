/** Directory listings: the getdents64 encoder, its decoder and repeated calls. */
module Getdents {
  import opened Words

  datatype Entry = Entry(name: seq<byte>, kind: byte)

  /** align_usize(19 + name + 1, 8). */
  function RecLen(e: Entry): (n: nat)
    ensures 20 + |e.name| <= n < 28 + |e.name| && n % 8 == 0
  {
    ((19 + |e.name|) / 8 + 1) * 8
  }

  function Padding(n: nat): (s: seq<byte>)
    ensures |s| == n
  {
    seq(n, _ => 0)
  }

  /** Inode, offset, record length, kind. */
  function Head(e: Entry, c: nat): (s: seq<byte>)
    ensures |s| == 19
  {
    ToLittleEndian(c + 1, 8) + ToLittleEndian(c + 1, 8) + ToLittleEndian(RecLen(e), 2) + [e.kind]
  }

  /** The record of the entry at position c. */
  function Record(e: Entry, c: nat): (s: seq<byte>)
    ensures |s| == RecLen(e)
  {
    Head(e, c) + e.name + [0] + Padding(RecLen(e) - 20 - |e.name|)
  }

  /** The records of the entries from i up to j. */
  function Records(es: seq<Entry>, i: nat, j: nat): seq<byte>
    requires i <= j <= |es|
    decreases j - i
  {
    if i == j then [] else Record(es[i], i) + Records(es, i + 1, j)
  }

  /** Where one call stops: at the end, or before the first record that does not fit. */
  function StopsAt(es: seq<Entry>, cursor: nat, room: nat): (j: nat)
    requires cursor <= |es|
    ensures cursor <= j <= |es|
    decreases |es| - cursor
  {
    if cursor == |es| || RecLen(es[cursor]) > room then cursor else StopsAt(es, cursor + 1, room - RecLen(es[cursor]))
  }

  lemma {:induction false} RecordsSnoc(es: seq<Entry>, i: nat, j: nat)
    requires i <= j < |es|
    ensures Records(es, i, j + 1) == Records(es, i, j) + Record(es[j], j)
    decreases j - i
  {
    if i < j {
      RecordsSnoc(es, i + 1, j);
      assert Record(es[i], i) + (Records(es, i + 1, j) + Record(es[j], j)) == Record(es[i], i) + Records(es, i + 1, j) + Record(es[j], j);
    } else {
      assert Records(es, i, i) == [] && Records(es, i + 1, j + 1) == [];
    }
  }

  lemma {:induction false} RecordsJoin(es: seq<Entry>, i: nat, k: nat, j: nat)
    requires i <= k <= j <= |es|
    ensures Records(es, i, j) == Records(es, i, k) + Records(es, k, j)
    decreases k - i
  {
    if i < k { RecordsJoin(es, i + 1, k, j); }
  }

  // ------------------------------------------------------------ decoding

  datatype Dirent = Dirent(inode: nat, offset: nat, length: nat, kind: byte, name: seq<byte>)

  function UpToNul(s: seq<byte>): seq<byte> {
    if s == [] || s[0] == 0 then [] else [s[0]] + UpToNul(s[1..])
  }

  /** The record at the start of a buffer. */
  function First(s: seq<byte>): Option<Dirent> {
    if |s| < 20 then None
    else Some(Dirent(FromLittleEndian(s[..8]), FromLittleEndian(s[8..16]), FromLittleEndian(s[16..18]), s[18], UpToNul(s[19..])))
  }

  /** All records of a buffer, each found by the length of the one before. */
  function Decode(s: seq<byte>): Option<seq<Dirent>>
    decreases |s|
  {
    if s == [] then Some([])
    else
      match First(s)
      case None => None
      case Some(d) =>
        if d.length == 0 || d.length > |s| then None
        else
          match Decode(s[d.length..])
          case None => None
          case Some(rest) => Some([d] + rest)
  }

  /** What listing the entry at position c means. */
  function DirentOf(e: Entry, c: nat): Dirent { Dirent(c + 1, c + 1, RecLen(e), e.kind, e.name) }

  function Dirents(es: seq<Entry>, i: nat, j: nat): seq<Dirent>
    requires i <= j <= |es|
    decreases j - i
  {
    if i == j then [] else [DirentOf(es[i], i)] + Dirents(es, i + 1, j)
  }

  /** Names without NUL whose record length fits sixteen bits; positions fit a word. */
  predicate Plain(e: Entry) { 0 !in e.name && RecLen(e) < 65536 }

  lemma {:induction false} NameBack(name: seq<byte>, rest: seq<byte>)
    requires 0 !in name
    ensures UpToNul(name + [0] + rest) == name
    decreases |name|
  {
    if name != [] {
      assert (name + [0] + rest)[1..] == name[1..] + [0] + rest;
      NameBack(name[1..], rest);
    }
  }

  lemma ShortRoundTrip(v: nat)
    requires v < 65536
    ensures FromLittleEndian(ToLittleEndian(v, 2)) == v
  {
    LittleEndianRoundTrip(v, 2);
    assert Pow256(2) == 256 * Pow256(1) && Pow256(1) == 256 * Pow256(0);
    ModUnique(v, 65536, 0, v);
  }

  /** A record decodes to its entry, whatever follows it. */
  lemma FirstOfRecord(e: Entry, c: nat, rest: seq<byte>)
    requires Plain(e) && c + 1 < U64
    ensures First(Record(e, c) + rest) == Some(DirentOf(e, c))
  {
    var s, pad := Record(e, c) + rest, Padding(RecLen(e) - 20 - |e.name|);
    assert s == Head(e, c) + (e.name + [0] + (pad + rest));
    assert s[19..] == e.name + [0] + (pad + rest);
    NameBack(e.name, pad + rest);
    HeadParts(e, c, e.name + [0] + (pad + rest));
    WordRoundTrip(c + 1);
    ShortRoundTrip(RecLen(e));
  }

  lemma HeadParts(e: Entry, c: nat, more: seq<byte>)
    ensures var s := Head(e, c) + more;
            s[..8] == ToLittleEndian(c + 1, 8) && s[8..16] == ToLittleEndian(c + 1, 8)
            && s[16..18] == ToLittleEndian(RecLen(e), 2) && s[18] == e.kind
  {
  }

  /** Decoding the bytes of a call gives exactly the entries between the old and the new cursor, in order. */
  lemma {:induction false} DecodeRecords(es: seq<Entry>, i: nat, j: nat)
    requires i <= j <= |es| < U64 && forall k :: i <= k < j ==> Plain(es[k])
    ensures Decode(Records(es, i, j)) == Some(Dirents(es, i, j))
    decreases j - i
  {
    if i < j {
      var r, rest := Record(es[i], i), Records(es, i + 1, j);
      FirstOfRecord(es[i], i, rest);
      assert (r + rest)[|r|..] == rest;
      DecodeRecords(es, i + 1, j);
    }
  }

  function Total(ds: seq<Dirent>): nat { if ds == [] then 0 else ds[0].length + Total(ds[1..]) }

  /** The record lengths sum to the bytes written. */
  lemma {:induction false} LengthsSum(es: seq<Entry>, i: nat, j: nat)
    requires i <= j <= |es|
    ensures Total(Dirents(es, i, j)) == |Records(es, i, j)|
    decreases j - i
  {
    if i < j {
      LengthsSum(es, i + 1, j);
      assert Dirents(es, i, j)[1..] == Dirents(es, i + 1, j);
    }
  }

  lemma {:induction false} DirentsSize(es: seq<Entry>, i: nat, j: nat)
    requires i <= j <= |es|
    ensures |Dirents(es, i, j)| == j - i
    decreases j - i
  {
    if i < j { DirentsSize(es, i + 1, j); }
  }

  /** The k-th of them is the record of entry i + k. */
  lemma {:induction false} DirentAt(es: seq<Entry>, i: nat, j: nat, k: nat)
    requires i <= j <= |es| && k < j - i
    ensures |Dirents(es, i, j)| == j - i && Dirents(es, i, j)[k] == DirentOf(es[i + k], i + k)
    decreases j - i
  {
    DirentsSize(es, i, j);
    if k > 0 { DirentAt(es, i + 1, j, k - 1); }
  }

  // ------------------------------------------------------------ repeated calls

  lemma {:induction false} StopFits(es: seq<Entry>, cursor: nat, room: nat)
    requires cursor <= |es|
    ensures |Records(es, cursor, StopsAt(es, cursor, room))| <= room
    ensures StopsAt(es, cursor, room) < |es| ==>
              |Records(es, cursor, StopsAt(es, cursor, room))| + RecLen(es[StopsAt(es, cursor, room)]) > room
    decreases |es| - cursor
  {
    if cursor < |es| && RecLen(es[cursor]) <= room { StopFits(es, cursor + 1, room - RecLen(es[cursor])); }
  }

  /** The cursor after a series of calls with the given buffer sizes. */
  function After(es: seq<Entry>, cursor: nat, rooms: seq<nat>): (j: nat)
    requires cursor <= |es|
    ensures cursor <= j <= |es|
    decreases |rooms|
  {
    if rooms == [] then cursor else After(es, StopsAt(es, cursor, rooms[0]), rooms[1..])
  }

  /** What the calls write, one after the other. */
  function Output(es: seq<Entry>, cursor: nat, rooms: seq<nat>): seq<byte>
    requires cursor <= |es|
    decreases |rooms|
  {
    if rooms == [] then []
    else
      var j := StopsAt(es, cursor, rooms[0]);
      Records(es, cursor, j) + Output(es, j, rooms[1..])
  }

  /** No call repeats or skips an entry. */
  lemma {:induction false} CallsContinue(es: seq<Entry>, cursor: nat, rooms: seq<nat>)
    requires cursor <= |es|
    ensures Output(es, cursor, rooms) == Records(es, cursor, After(es, cursor, rooms))
    decreases |rooms|
  {
    if rooms != [] {
      var j := StopsAt(es, cursor, rooms[0]);
      CallsContinue(es, j, rooms[1..]);
      RecordsJoin(es, cursor, j, After(es, cursor, rooms));
    }
  }

  /** Every buffer takes at least the largest record. */
  predicate Roomy(es: seq<Entry>, rooms: seq<nat>) {
    forall k, t :: 0 <= k < |es| && 0 <= t < |rooms| ==> RecLen(es[k]) <= rooms[t]
  }

  lemma {:induction false} CallsProgress(es: seq<Entry>, cursor: nat, rooms: seq<nat>)
    requires cursor <= |es| && Roomy(es, rooms)
    ensures After(es, cursor, rooms) == |es| || After(es, cursor, rooms) >= cursor + |rooms|
    decreases |rooms|
  {
    if rooms != [] {
      var j := StopsAt(es, cursor, rooms[0]);
      if cursor < |es| { assert RecLen(es[cursor]) <= rooms[0]; }
      assert forall t :: 0 <= t < |rooms| - 1 ==> rooms[1..][t] == rooms[t + 1];
      CallsProgress(es, j, rooms[1..]);
    }
  }

  /**
    With buffers that take the largest record, as many calls as there are entries list every entry exactly
    once and in order, and every later call writes nothing.
   */
  lemma ListsEverything(es: seq<Entry>, rooms: seq<nat>, room: nat)
    requires Roomy(es, rooms) && |rooms| >= |es| && |es| < U64 && forall k :: 0 <= k < |es| ==> Plain(es[k])
    ensures Decode(Output(es, 0, rooms)).Some?
    ensures var listed := Decode(Output(es, 0, rooms)).value;
            |listed| == |es| && forall k :: 0 <= k < |es| ==> listed[k] == DirentOf(es[k], k)
    ensures After(es, 0, rooms) == |es| && StopsAt(es, |es|, room) == |es|
  {
    CallsProgress(es, 0, rooms);
    CallsContinue(es, 0, rooms);
    DecodeRecords(es, 0, |es|);
    DirentsSize(es, 0, |es|);
    forall k | 0 <= k < |es| ensures Dirents(es, 0, |es|)[k] == DirentOf(es[k], k) { DirentAt(es, 0, |es|, k); }
  }

  // ------------------------------------------------------------ the encoder

  /** s with b written over it at a position. */
  function Splice(s: seq<byte>, at: nat, b: seq<byte>): (r: seq<byte>)
    requires at + |b| <= |s|
    ensures |r| == |s|
  {
    s[..at] + b + s[at + |b|..]
  }

  lemma SpliceTwice(s: seq<byte>, at: nat, a: seq<byte>, b: seq<byte>)
    requires at + |a| + |b| <= |s|
    ensures Splice(Splice(s, at, a), at + |a|, b) == Splice(s, at, a + b)
  {
    var t := Splice(s, at, a);
    assert t[..at + |a|] == s[..at] + a;
    assert t[at + |a| + |b|..] == s[at + |a| + |b|..];
  }

  method Put(output: array<byte>, at: nat, bytes: seq<byte>)
    requires at + |bytes| <= output.Length
    modifies output
    ensures output[..] == Splice(old(output[..]), at, bytes)
  {
    forall k | 0 <= k < |bytes| { output[at + k] := bytes[k]; }
  }

  /** Writing behind what is already written. */
  method PutMore(output: array<byte>, at: nat, ghost s: seq<byte>, ghost done: seq<byte>, pos: nat, bytes: seq<byte>)
    requires |s| == output.Length && at + |done| + |bytes| <= |s| && output[..] == Splice(s, at, done) && pos == at + |done|
    modifies output
    ensures output[..] == Splice(s, at, done + bytes)
  {
    SpliceTwice(s, at, done, bytes);
    Put(output, pos, bytes);
  }

  method PutHead(output: array<byte>, at: nat, e: Entry, c: nat)
    requires at + 19 <= output.Length
    modifies output
    ensures output[..] == Splice(old(output[..]), at, Head(e, c))
  {
    ghost var s := output[..];
    var position := ToLittleEndian(c + 1, 8);
    Put(output, at, position);
    PutMore(output, at, s, position, at + 8, position);
    PutMore(output, at, s, position + position, at + 16, ToLittleEndian(RecLen(e), 2));
    PutMore(output, at, s, position + position + ToLittleEndian(RecLen(e), 2), at + 18, [e.kind]);
  }

  class DirectoryFd {
    var entries: seq<Entry>
    var cursor: nat

    ghost predicate Valid()
      reads this
    {
      cursor <= |entries|
    }

    constructor (es: seq<Entry>)
      ensures Valid() && entries == es && cursor == 0
    {
      entries, cursor := es, 0;
    }

    /** The field-by-field writes of one record. */
    method PutRecord(output: array<byte>, at: nat)
      requires Valid() && cursor < |entries| && at + RecLen(entries[cursor]) <= output.Length
      modifies output
      ensures output[..] == Splice(old(output[..]), at, Record(entries[cursor], cursor))
    {
      var e := entries[cursor];
      ghost var s := output[..];
      PutHead(output, at, e, cursor);
      PutMore(output, at, s, Head(e, cursor), at + 19, e.name);
      PutMore(output, at, s, Head(e, cursor) + e.name, at + 19 + |e.name|, [0]);
      PutMore(output, at, s, Head(e, cursor) + e.name + [0], at + 20 + |e.name|, Padding(RecLen(e) - 20 - |e.name|));
    }

    /** The next record behind those from start on. */
    method PutNext(output: array<byte>, written: nat, ghost s: seq<byte>, ghost start: nat)
      requires Valid() && start <= cursor < |entries| && |s| == output.Length
      requires written == |Records(entries, start, cursor)| && written + RecLen(entries[cursor]) <= output.Length
      requires output[..] == Splice(s, 0, Records(entries, start, cursor))
      modifies output
      ensures output[..] == Splice(s, 0, Records(entries, start, cursor) + Record(entries[cursor], cursor))
      ensures Records(entries, start, cursor + 1) == Records(entries, start, cursor) + Record(entries[cursor], cursor)
    {
      RecordsSnoc(entries, start, cursor);
      SpliceTwice(s, 0, Records(entries, start, cursor), Record(entries[cursor], cursor));
      PutRecord(output, written);
    }

    /** write_getdents64: whole records while they fit, the rest of the buffer untouched. */
    method Write(output: array<byte>) returns (written: nat)
      requires Valid()
      modifies `cursor, output
      ensures Valid() && cursor == StopsAt(entries, old(cursor), output.Length)
      ensures written == |Records(entries, old(cursor), cursor)| <= output.Length
      ensures output[..] == Splice(old(output[..]), 0, Records(entries, old(cursor), cursor))
    {
      written := 0;
      ghost var start, s := cursor, output[..];
      assert Splice(s, 0, []) == s;
      while cursor < |entries|
        invariant start <= cursor <= |entries| && written == |Records(entries, start, cursor)| <= output.Length
        invariant StopsAt(entries, cursor, output.Length - written) == StopsAt(entries, start, output.Length)
        invariant output[..] == Splice(s, 0, Records(entries, start, cursor))
      {
        var length := RecLen(entries[cursor]);
        if written + length > output.Length { break; }
        PutNext(output, written, s, start);
        written, cursor := written + length, cursor + 1;
      }
    }
  }
}
