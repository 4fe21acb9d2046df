/** The records of a file index: src/core/adios_bp_v1.h:105-190. */
module IndexRecords {
  import opened Outcomes
  import opened Bytes
  import opened Types

  /** A process group. */
  datatype Pg = Pg(groupName: seq<byte>, fortran: bool, processId: nat, timeIndexName: Option<seq<byte>>,
                   timeIndex: nat, offsetInFile: nat)

  /** A scalar: the bit pattern of a number, a string, or the two parts of a complex number. */
  datatype Value = Word(n: nat) | Text(bytes: seq<byte>) | Pair(re: nat, im: nat)

  /** A statistic, as bit patterns; the parser leaves the minimum of a histogram unset. */
  datatype Stat = Number(n: nat) | Histogram(min: Option<nat>, max: nat, freqs: seq<nat>, breaks: seq<nat>)

  /** One set of characteristics; `dims` has three words for each dimension. */
  datatype Characteristic = Characteristic(offset: nat, payloadOffset: nat, fileIndex: nat, timeIndex: nat,
                                           dims: seq<nat>, bitmap: nat, stats: seq<seq<Stat>>,
                                           value: Option<Value>, varId: nat)

  /** A variable or an attribute with all its sets of characteristics. */
  datatype Entry = Entry(id: nat, groupName: seq<byte>, name: seq<byte>, path: seq<byte>, type_: Datatype,
                         chars: seq<Characteristic>) {
    /** What an index looks entries up by. */
    function Name(): FullName { KeyOf(path, name) }
  }

  /** Path and name in one text, as the hash table has it. */
  type FullName = seq<byte>

  const SLASH: byte := 47

  /** genkey: src/core/qhashtbl.c:191-207. */
  function KeyOf(path: seq<byte>, name: seq<byte>): FullName {
    if path == [] then name else if path == [SLASH] then [SLASH] + name else path + [SLASH] + name
  }
}
