/** Parsing whole sections of an index: src/core/adios_bp_v1.c:288-1109. */
module BpIndexParser {
  import opened Seqs
  import opened Outcomes
  import opened IndexRecords
  import opened Bytes
  import opened Types
  import opened Chunks
  import opened ReadBuffers
  import opened BpIndex
  import opened BpParser
  import opened BpSetParser

  method ParseSets(b: ReadBuffer, kind: Kind, ty: Datatype, count: nat, ghost chars: seq<Characteristic>,
                   ghost w: Endian, ghost cs: seq<seq<byte>>, ghost t: seq<byte>) returns (r: seq<Characteristic>)
    requires SetsFit(kind, ty, chars) && (forall i | 0 <= i < |chars| :: ShortSet(chars[i])) && count == |chars|
    requires cs == SetChunks(w, kind, ty, chars) && b.At(w, cs, 0, t)
    modifies b`offset
    ensures b.At(w, cs, |cs|, t) && r == SetsRead(w, b.host, kind, ty, chars)
  {
    ghost var goal := SetsRead(w, b.host, kind, ty, chars);
    r := [];
    for j := 0 to count
      invariant b.At(w, cs, j, t) && r == goal[..j]
    {
      var c := ParseSet(b, kind, ty, chars[j], w, cs, j, t);
      PrefixStep(goal, j);
      r := r + [c];
    }
  }

  /** The fields before the sets; `chars` is left empty, and room is made for `count` of them. */
  method ParseEntryHead(b: ReadBuffer, kind: Kind, ghost e: Entry, ghost w: Endian, ghost cs: seq<seq<byte>>,
                        ghost t: seq<byte>)
    returns (r: Entry, count: nat)
    requires EntryFits(kind, e) && cs == EntryFields(w, kind, e) && b.At(w, cs, 0, t)
    modifies b`offset
    ensures b.At(w, cs, 6, t) && r == Entry(e.id, Cut(e.groupName), Cut(e.name), Cut(e.path), e.type_, [])
    ensures count == |e.chars|
  {
    var id := b.Read32(e.id, w, cs, 0, t);
    var groupName := ReadStr(b, e.groupName, w, cs, 1, t);
    var name := ReadStr(b, e.name, w, cs, 2, t);
    var path := ReadStr(b, e.path, w, cs, 3, t);
    var ty := ReadType(b, e.type_, w, cs, 4, t);
    count := b.Read64(|e.chars|, w, cs, 5, t);
    r := Entry(id, groupName, name, path, ty, []);
  }

  /** Entry i. */
  method ParseEntry(b: ReadBuffer, kind: Kind, ghost e: Entry, ghost w: Endian, ghost cs: seq<seq<byte>>, ghost i: nat,
                    ghost t: seq<byte>)
    returns (r: Entry)
    requires EntryFits(kind, e) && ShortEntry(e) && b.At(w, cs, i, t) && i < |cs| && cs[i] == EntryBytes(w, kind, e)
    modifies b`offset
    ensures b.At(w, cs, i + 1, t) && r == EntryRead(w, b.host, kind, e)
  {
    ghost var fields, rest := EntryFields(w, kind, e), Flat(cs[i + 1..]) + t;
    ghost var sets := SetChunks(w, kind, e.type_, e.chars);
    b.ReadLength(4, |Flat(fields)|, w, cs, i, t, fields);
    var count;
    r, count := ParseEntryHead(b, kind, e, w, fields, rest);
    b.Enter(w, fields, 6, rest, sets);
    var chars := ParseSets(b, kind, r.type_, count, e.chars, w, sets, Flat(fields[7..]) + rest);
    r := r.(chars := chars);
    b.Leave(w, fields, 6, rest, sets);
    b.Leave(w, cs, i, t, fields);
  }

  method ParseEntries(b: ReadBuffer, kind: Kind, count: nat, ghost es: seq<Entry>, ghost w: Endian,
                      ghost cs: seq<seq<byte>>, ghost t: seq<byte>)
    returns (r: seq<Entry>)
    requires EntriesFit(kind, es) && ShortEntries(es) && count == |es| && cs == EntryChunks(w, kind, es)
    requires b.At(w, cs, 0, t)
    modifies b`offset
    ensures b.At(w, cs, |cs|, t) && r == EntriesRead(w, b.host, kind, es)
  {
    ghost var goal := EntriesRead(w, b.host, kind, es);
    r := [];
    for i := 0 to count
      invariant b.At(w, cs, i, t) && r == goal[..i]
    {
      var e := ParseEntry(b, kind, es[i], w, cs, i, t);
      PrefixStep(goal, i);
      r := r + [e];
    }
  }

  /** adios_parse_vars_index_v1 and adios_parse_attributes_index_v1. */
  method ParseEntrySection(b: ReadBuffer, kind: Kind, ghost es: seq<Entry>, ghost w: Endian, ghost t: seq<byte>)
    returns (r: Result<seq<Entry>>)
    requires b.offset <= |b.buff|
    requires |b.buff| - b.offset >= 10 ==>
      EntriesFit(kind, es) && ShortEntries(es) && b.At(w, EntrySectionFields(w, kind, es), 0, t)
    modifies b`offset
    ensures r == if |b.buff| - old(b.offset) < 10 then Err else Ok(EntriesRead(w, b.host, kind, es))
    ensures r.Ok? ==> b.At(w, EntrySectionFields(w, kind, es), 3, t)
  {
    if |b.buff| - b.offset < 10 {
      return Err;
    }
    ghost var fields := EntrySectionFields(w, kind, es);
    ghost var cs := EntryChunks(w, kind, es);
    var count := b.Read32(|es|, w, fields, 0, t);
    var _ := b.Take(8, w, fields, 1, t);
    b.Enter(w, fields, 2, t, cs);
    var entries := ParseEntries(b, kind, count, es, w, cs, Flat(fields[3..]) + t);
    b.Leave(w, fields, 2, t, cs);
    return Ok(entries);
  }
}
