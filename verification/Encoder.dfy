/** yEncodeChunk, run by one caller at a time: the registry object and the printing of an article. */
module Encoder {
  import opened Bytes
  import opened Crc32
  import opened YEnc
  import opened Article
  import opened Parts
  import opened Wrappers

  lemma BeginLineFlat(p: Part, rest: seq<byte>)
    ensures BeginLine(p, rest)
         == YBEGIN_PART + Decimal(p.number) + TOTAL + Decimal(p.total) + LINE_SIZE + Decimal(p.size)
            + NAME + p.filename + CRLF + rest
  {
    hide Decimal;
  }

  lemma PartLineFlat(p: Part, rest: seq<byte>)
    ensures PartLine(p, rest)
         == YPART_BEGIN + Decimal(p.offset + 1) + END + Decimal(p.offset + |p.data|) + CRLF + rest
  {
    hide Decimal;
  }

  lemma TrailerFlat(p: Part, whole: Option<bv32>)
    ensures Trailer(p, whole)
         == YEND_SIZE + Decimal(|p.data|) + PART + Decimal(p.number) + PCRC32 + Hex(Checksum(p.data), 8)
            + WholeField(whole)
  {
    hide Decimal, Hex, Checksum, WholeField;
  }

  method PrintHeaders(p: Part) returns (begin: seq<byte>, ypart: seq<byte>)
    ensures forall rest :: BeginLine(p, rest) == begin + rest
    ensures forall rest :: PartLine(p, rest) == ypart + rest
  {
    hide Decimal, BeginLine, PartLine;
    begin := YBEGIN_PART + Decimal(p.number) + TOTAL + Decimal(p.total) + LINE_SIZE + Decimal(p.size)
      + NAME + p.filename + CRLF;
    ypart := YPART_BEGIN + Decimal(p.offset + 1) + END + Decimal(p.offset + |p.data|) + CRLF;
    forall rest ensures BeginLine(p, rest) == begin + rest {
      BeginLineFlat(p, rest);
    }
    forall rest ensures PartLine(p, rest) == ypart + rest {
      PartLineFlat(p, rest);
    }
  }

  method PrintTrailer(p: Part, whole: Option<bv32>) returns (yend: seq<byte>)
    ensures yend == Trailer(p, whole)
  {
    hide Decimal, Hex, Checksum, Trailer;
    yend := YEND_SIZE + Decimal(|p.data|) + PART + Decimal(p.number) + PCRC32 + Hex(Checksum(p.data), 8);
    TrailerFlat(p, whole);
    match whole {
      case Some(crc) =>
        assert yend + (CRC32 + (Hex(crc, 8) + CRLF)) == yend + CRC32 + Hex(crc, 8) + CRLF;
        yend := yend + CRC32 + Hex(crc, 8) + CRLF;
      case None =>
        yend := yend + CRLF;
    }
  }

  method PrintArticle(p: Part, whole: Option<bv32>) returns (buf: seq<byte>)
    ensures buf == Printed(p, whole)
    ensures OneLine(p.filename) ==> DotStuffed(buf, true) == buf
  {
    hide Body, OneLine, DotStuffed, BeginLine, PartLine, Trailer;
    if OneLine(p.filename) {
      SurvivesNntp(p, whole);
    }
    var begin, ypart := PrintHeaders(p);
    buf := begin + ypart;
    var body := EncodeBody(p.data);
    buf := buf + body;
    var yend := PrintTrailer(p, whole);
    buf := buf + yend;
    assert PartLine(p, body + yend) == ypart + (body + yend);
    assert BeginLine(p, PartLine(p, body + yend)) == begin + PartLine(p, body + yend);
    assert buf == begin + (ypart + (body + yend));
  }

  class Registry {
    var states: map<seq<byte>, FileCRCState>

    constructor ()
      ensures states == map[]
    {
      states := map[];
    }

    /** What is registered under a key; nothing when there is no entry. */
    function PartsAt(key: seq<byte>): PartMap
      reads this, if key in states then {states[key]} else {}
    {
      if key in states then states[key].parts else map[]
    }

    method LoadOrCreateFileCRCState(key: seq<byte>) returns (s: FileCRCState)
      modifies this
      ensures states == old(states)[key := s]
      ensures key in old(states) ==> s == old(states)[key]
      ensures key !in old(states) ==> fresh(s)
      ensures s.parts == old(PartsAt(key))
    {
      if key in states {
        s := states[key];
        assert states == states[key := s];
      } else {
        s := new FileCRCState();
        states := states[key := s];
      }
    }

    /** Every part of a multi-part file registers itself. */
    method RegisterPart(p: Part) returns (state: FileCRCState)
      modifies this, if FileCRCKey(p.filename, p.size) in states
                     then {states[FileCRCKey(p.filename, p.size)]} else {}
      ensures var key := FileCRCKey(p.filename, p.size);
              && states == old(states)[key := state]
              && (key in old(states) ==> state == old(states)[key])
              && (key !in old(states) ==> fresh(state))
              && state.parts == old(PartsAt(key))[p.number := InfoOf(p.data)]
    {
      hide FileCRCKey, InfoOf;
      state := LoadOrCreateFileCRCState(FileCRCKey(p.filename, p.size));
      state.Register(p.number, p.data);
    }

    /** The final part, registered: wait for the others, fold, and drop the entry. */
    method WaitAndFold(key: seq<byte>, state: FileCRCState, total: nat, arrivals: seq<Part>) returns (whole: Option<bv32>)
      requires key in states && states[key] == state
      modifies this, state
      ensures var folded := AfterArrivals(old(state.parts), total, arrivals);
              && state.parts == folded
              && (|folded| >= total ==> whole == Some(Fold(folded, total)) && states == old(states) - {key})
              && (|folded| < total ==> whole == None && states == old(states))
    {
      hide Fold, AfterArrivals;
      var full := state.Await(total, arrivals);
      if !full {
        return None;
      }
      var crc := state.WholeFileCRC(total);
      whole := Some(crc);
      states := states - {key};
    }

    /**
     One call. `arrivals` are the parts that other callers register while the final part waits; None
     is a final part that still waits when no more arrive. The final part drops the entry once it has
     folded; every other part of a multi-part file leaves itself registered; a single-part file
     touches nothing; other files' entries are left alone.
     */
    method YEncodeChunk(p: Part, arrivals: seq<Part>) returns (result: Option<seq<byte>>)
      modifies this, if FileCRCKey(p.filename, p.size) in states
                     then {states[FileCRCKey(p.filename, p.size)]} else {}
      ensures var key := FileCRCKey(p.filename, p.size);
              var registered := old(PartsAt(key))[p.number := InfoOf(p.data)];
              var folded := AfterArrivals(registered, p.total, arrivals);
              && (p.total <= 1 ==>
                    && result == Some(Printed(p, if p.total == 1 then Some(Checksum(p.data)) else None))
                    && states == old(states) && PartsAt(key) == old(PartsAt(key)))
              && (p.total > 1 && p.number != p.total ==>
                    && result == Some(Printed(p, None))
                    && states.Keys == old(states.Keys) + {key} && PartsAt(key) == registered)
              && (p.total > 1 && p.number == p.total && |folded| >= p.total ==>
                    && result == Some(Printed(p, Some(Fold(folded, p.total))))
                    && states == old(states) - {key})
              && (p.total > 1 && p.number == p.total && |folded| < p.total ==>
                    result == None && states.Keys == old(states.Keys) + {key} && PartsAt(key) == folded)
      ensures p.total == 1 && OneLine(p.filename) ==>
                && result.Some? && Read(result.value).Some?
                && Read(result.value).value.data == p.data
                && Read(result.value).value.crc == Some(Checksum(p.data))
      ensures forall other :: other in old(states) && other != FileCRCKey(p.filename, p.size) ==>
                other in states && states[other] == old(states)[other]
    {
      hide Printed, Read, OneLine, Fold, Checksum, FileCRCKey, AfterArrivals, InfoOf;
      var whole := None;
      if p.total > 1 {
        var key := FileCRCKey(p.filename, p.size);
        var state := RegisterPart(p);
        if p.number == p.total {
          whole := WaitAndFold(key, state, p.total, arrivals);
          if whole.None? {
            return None;
          }
        }
      } else if p.total == 1 {
        whole := Some(Checksum(p.data));
        if OneLine(p.filename) {
          ReadInvertsPrint(p, whole);
        }
      }
      var buf := PrintArticle(p, whole);
      result := Some(buf);
    }
  }

  /** Among the parts that arrive, the first that completes the count ends the wait. */
  lemma {:induction false} WaitEnds(parts: PartMap, total: nat, arrivals: seq<Part>, data: seq<byte>)
    requires Agrees(parts, data) && total == PartCount(|data|)
    requires forall i :: 0 <= i < |arrivals| ==>
               1 <= arrivals[i].number <= total && arrivals[i].data == Chunk(data, arrivals[i].number)
    requires forall k :: 1 <= k <= total ==> k in parts || exists i :: 0 <= i < |arrivals| && arrivals[i].number == k
    ensures var folded := AfterArrivals(parts, total, arrivals);
            |folded| >= total && Fold(folded, total) == Checksum(data)
    decreases |arrivals|
  {
    hide Fold, Checksum, Chunk;
    CountOfAll(parts, total);
    if |parts| >= total {
      FullWhenCounted(parts, data);
      FoldIsFileChecksum(parts, data);
    } else if arrivals != [] {
      var q := arrivals[0];
      var parts' := parts[q.number := InfoOf(q.data)];
      forall k | 1 <= k <= total && k !in parts'
        ensures exists i :: 0 <= i < |arrivals[1..]| && arrivals[1..][i].number == k
      {
        var i :| 0 <= i < |arrivals| && arrivals[i].number == k;
        assert arrivals[1..][i - 1].number == k;
      }
      WaitEnds(parts', total, arrivals[1..], data);
    }
  }

  lemma CountOfAll(parts: PartMap, total: nat)
    ensures (forall k :: 1 <= k <= total ==> k in parts) ==> |parts| >= total
  {
    assert |parts.Keys| == |parts|;
    if forall k :: 1 <= k <= total ==> k in parts {
      SubsetSize(Numbers(total), parts.Keys);
    }
  }
}
