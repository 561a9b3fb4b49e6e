/**
 * `Contract.srcmap`: the deployed bytecode is split into bytes and walked
 * instruction by instruction, and the compiler's compressed source map
 * (Solidity documentation, "Source Mappings") is expanded into one
 * `s:l:f:j:m` entry per `;`-separated segment.
 */
module SourceMaps {
  import opened Wrappers
  import opened Errors
  import opened PyStr

  // ---------------------------------------------------------------------------
  // bytecode text to bytes

  /** Python's `[h[i:i + 2] for i in range(0, len(h), 2)]`: pairs of characters, the last one possibly single. */
  function Chunks(h: string): (r: seq<string>)
    ensures |r| == (|h| + 1) / 2
    decreases |h|
  {
    if |h| <= 2 then (if h == [] then [] else [h])
    else [h[..2]] + Chunks(h[2..])
  }

  function Min(a: int, b: int): int
  {
    if a <= b then a else b
  }

  /** Chunk `i` is the text from position `2i` to `2i + 2`, cut at the end of the string. */
  lemma {:induction false} ChunkAt(h: string, i: nat)
    requires i < |Chunks(h)|
    ensures Chunks(h)[i] == h[2 * i .. Min(2 * i + 2, |h|)]
    decreases |h|
  {
    if |h| > 2 && i > 0 {
      var t := h[2..];
      ChunkAt(t, i - 1);
      assert Chunks(h) == [h[..2]] + Chunks(t);
      var a, b := 2 * i, Min(2 * i + 2, |h|);
      assert Min(2 * (i - 1) + 2, |t|) == b - 2;
      DropTwoSlice(h, a, b);
    }
  }

  lemma DropTwoSlice(h: string, a: int, b: int)
    requires 2 <= a <= b <= |h|
    ensures h[2..][a - 2 .. b - 2] == h[a..b]
  {
  }

  /** `int(chunk, 16)` for every chunk, in order; the first chunk that is not a literal is reported. */
  function ParseBytes(cs: seq<string>): (r: Result<seq<int>, Error>)
    ensures r.Ok? <==> forall i :: 0 <= i < |cs| ==> ParseInt(cs[i], 16).Some?
    ensures r.Ok? ==> |r.value| == |cs| && forall i :: 0 <= i < |cs| ==> Some(r.value[i]) == ParseInt(cs[i], 16)
    ensures r.Err? ==> exists i :: 0 <= i < |cs| && r.error == InvalidLiteral(cs[i], 16)
  {
    if cs == [] then Ok([])
    else
      var b :- ToInt(cs[0], 16);
      var rest :- ParseBytes(cs[1..]);
      assert forall i :: 1 <= i < |cs| ==> cs[i] == cs[1..][i - 1];
      Ok([b] + rest)
  }

  /** The list `bs` that `srcmap` builds from the bytecode text. */
  function HexBytes(h: string): Result<seq<int>, Error>
  {
    ParseBytes(Chunks(h))
  }

  /** The lower-case hexadecimal digit for `d`. */
  function HexDigit(d: nat): (c: char)
    requires d < 16
    ensures IsDigit(c, 16) && DigitValue(c) == d
  {
    if d < 10 then ('0' as int + d) as char else ('a' as int + d - 10) as char
  }

  predicate IsByte(b: int)
  {
    0 <= b < 256
  }

  /** Bytes written as two hexadecimal digits each, the form of a compiler's `object` text. */
  function Hex(bs: seq<int>): (h: string)
    requires forall i :: 0 <= i < |bs| ==> IsByte(bs[i])
    ensures |h| == 2 * |bs|
  {
    if bs == [] then ""
    else
      assert IsByte(bs[0]);
      [HexDigit(bs[0] / 16), HexDigit(bs[0] % 16)] + Hex(bs[1..])
  }

  lemma HexPairValue(b: int)
    requires IsByte(b)
    ensures ParseInt([HexDigit(b / 16), HexDigit(b % 16)], 16) == Some(b)
  {
    var s := [HexDigit(b / 16), HexDigit(b % 16)];
    assert s[0] != '-' && s[0] != '+' && s[1] != 'x' && s[1] != 'X';
    assert StripBasePrefix(s, 16) == s;
    assert WellFormedDigits(s, 16);
    NoUnderscoresKept(s, 16);
    assert s[..1] == [s[0]] && [s[0]][..0] == [];
    assert DigitsValue([s[0]], 16) == b / 16;
    assert DigitsValue(s, 16) == DigitsValue([s[0]], 16) * 16 + b % 16;
  }

  /** Reading bytes back from their hexadecimal text gives the same bytes. */
  lemma {:induction false} HexBytesRoundTrip(bs: seq<int>)
    requires forall i :: 0 <= i < |bs| ==> IsByte(bs[i])
    ensures HexBytes(Hex(bs)) == Ok(bs)
  {
    if bs != [] {
      var pair := [HexDigit(bs[0] / 16), HexDigit(bs[0] % 16)];
      var h := Hex(bs);
      HexPairValue(bs[0]);
      HexBytesRoundTrip(bs[1..]);
      assert h == pair + Hex(bs[1..]);
      if bs[1..] == [] {
        assert h == pair;
        assert Chunks(h) == [pair];
      } else {
        assert h[..2] == pair && h[2..] == Hex(bs[1..]);
        assert Chunks(h) == [pair] + Chunks(Hex(bs[1..]));
      }
      assert Chunks(h)[1..] == Chunks(Hex(bs[1..]));
      ParseBytesCons(Chunks(h), bs[0], bs[1..]);
      assert [bs[0]] + bs[1..] == bs;
    }
  }

  lemma ParseBytesCons(cs: seq<string>, b: int, rest: seq<int>)
    requires cs != [] && ParseInt(cs[0], 16) == Some(b) && ParseBytes(cs[1..]) == Ok(rest)
    ensures ParseBytes(cs) == Ok([b] + rest)
  {
  }

  // ---------------------------------------------------------------------------
  // instruction indexer

  /** The bound the source puts on push opcodes: `b < 0x7F`, which leaves PUSH32 out. */
  const AsWrittenPushEnd := 0x7F
  /** PUSH1 to PUSH32 are the opcodes 0x60 to 0x7F (Ethereum Yellow Paper, appendix H.2). */
  const YellowPaperPushEnd := 0x80

  /** The length of the instruction starting with byte `b`: the opcode and, for a push opcode below `pushEnd`, `b - 0x5F` immediate bytes. */
  function Width(b: int, pushEnd: int): (w: nat)
    ensures w >= 1
  {
    if 0x60 <= b < pushEnd then b - 0x5F + 1 else 1
  }

  /** The program counters at which the instructions start, from `pc` on. */
  function InstrPcs(bs: seq<int>, pc: nat, pushEnd: int): (pcs: seq<nat>)
    ensures pcs == [] <==> pc >= |bs|
    ensures forall i :: 0 <= i < |pcs| ==> pc <= pcs[i] < |bs|
    decreases |bs| - pc
  {
    if pc >= |bs| then [] else [pc] + InstrPcs(bs, pc + Width(bs[pc], pushEnd), pushEnd)
  }

  /**
   * The program counters start at `pc`, grow strictly, each is the previous
   * one plus the previous instruction's width, and the last instruction
   * reaches the end of the code.
   */
  lemma {:induction false} InstrPcsSteps(bs: seq<int>, pc: nat, pushEnd: int)
    ensures var pcs := InstrPcs(bs, pc, pushEnd);
      && (pcs != [] ==> pcs[0] == pc)
      && (forall i, j :: 0 <= i < j < |pcs| ==> pcs[i] < pcs[j])
      && (forall i :: 0 <= i < |pcs| - 1 ==> pcs[i + 1] == pcs[i] + Width(bs[pcs[i]], pushEnd))
      && (pcs != [] ==> pcs[|pcs| - 1] + Width(bs[pcs[|pcs| - 1]], pushEnd) >= |bs|)
    decreases |bs| - pc
  {
    if pc < |bs| {
      var next := pc + Width(bs[pc], pushEnd);
      InstrPcsSteps(bs, next, pushEnd);
      var rest := InstrPcs(bs, next, pushEnd);
      var pcs := InstrPcs(bs, pc, pushEnd);
      assert pcs == [pc] + rest;
      assert forall i :: 1 <= i < |pcs| ==> pcs[i] == rest[i - 1];
      assert rest != [] ==> rest[0] == next;
    }
  }

  /** One step of the indexer: the instruction at `pc` is the next one after `done`. */
  lemma InstrPcsStep(bs: seq<int>, pc: nat, pushEnd: int, done: seq<nat>)
    requires pc < |bs|
    requires InstrPcs(bs, 0, pushEnd) == done + InstrPcs(bs, pc, pushEnd)
    ensures InstrPcs(bs, 0, pushEnd) == (done + [pc]) + InstrPcs(bs, pc + Width(bs[pc], pushEnd), pushEnd)
  {
    var rest := InstrPcs(bs, pc + Width(bs[pc], pushEnd), pushEnd);
    assert InstrPcs(bs, pc, pushEnd) == [pc] + rest;
    assert done + ([pc] + rest) == (done + [pc]) + rest;
  }

  /** A map that lists the program counters of `InstrPcs` in order starts at 0, stays inside the code and grows strictly. */
  lemma IndexOrdered(bs: seq<int>, pushEnd: int, instrToPc: map<int, int>)
    requires forall i :: i in instrToPc <==> 0 <= i < |InstrPcs(bs, 0, pushEnd)|
    requires forall i :: i in instrToPc ==> instrToPc[i] == InstrPcs(bs, 0, pushEnd)[i]
    ensures bs != [] ==> 0 in instrToPc && instrToPc[0] == 0
    ensures forall i :: i in instrToPc ==> 0 <= instrToPc[i] < |bs|
    ensures forall i, j :: i in instrToPc && j in instrToPc && i < j ==> instrToPc[i] < instrToPc[j]
  {
    InstrPcsSteps(bs, 0, pushEnd);
  }

  /**
   * The `while` loop of `srcmap` that fills `instr_to_pc`, with its push
   * bound as a parameter: instruction `i` starts at the `i`-th program
   * counter, the keys are exactly `0 .. n - 1`, instruction 0 is at pc 0 and
   * the pcs grow strictly and stay inside the code.
   */
  method IndexInstructions(bs: seq<int>, pushEnd: int) returns (instrToPc: map<int, int>)
    ensures forall i :: i in instrToPc <==> 0 <= i < |InstrPcs(bs, 0, pushEnd)|
    ensures forall i :: i in instrToPc ==> instrToPc[i] == InstrPcs(bs, 0, pushEnd)[i]
    ensures bs != [] ==> 0 in instrToPc && instrToPc[0] == 0
    ensures forall i :: i in instrToPc ==> 0 <= instrToPc[i] < |bs|
    ensures forall i, j :: i in instrToPc && j in instrToPc && i < j ==> instrToPc[i] < instrToPc[j]
  {
    instrToPc := map[];
    var pc: nat := 0;
    var instr := 0;
    ghost var done: seq<nat> := [];
    while pc < |bs|
      invariant InstrPcs(bs, 0, pushEnd) == done + InstrPcs(bs, pc, pushEnd)
      invariant instr == |done|
      invariant forall i :: i in instrToPc <==> 0 <= i < instr
      invariant forall i :: i in instrToPc ==> instrToPc[i] == done[i]
      decreases |bs| - pc
    {
      var b := bs[pc];
      instrToPc := instrToPc[instr := pc];
      InstrPcsStep(bs, pc, pushEnd, done);
      done := done + [pc];
      if 0x60 <= b && b < pushEnd {
        var pushWidth := b - 0x5F;
        pc := pc + pushWidth;
      }
      pc := pc + 1;
      instr := instr + 1;
    }
    assert InstrPcs(bs, 0, pushEnd) == done;
    IndexOrdered(bs, pushEnd, instrToPc);
  }

  /** Code without push opcodes has one instruction per byte. */
  lemma {:induction false} NoPushEveryByte(bs: seq<int>, pc: nat, pushEnd: int)
    requires pc <= |bs|
    requires forall i :: 0 <= i < |bs| ==> !(0x60 <= bs[i] < pushEnd)
    ensures |InstrPcs(bs, pc, pushEnd)| == |bs| - pc
    ensures forall i :: 0 <= i < |bs| - pc ==> InstrPcs(bs, pc, pushEnd)[i] == pc + i
    decreases |bs| - pc
  {
    if pc < |bs| {
      NoPushEveryByte(bs, pc + 1, pushEnd);
      assert Width(bs[pc], pushEnd) == 1;
      var rest := InstrPcs(bs, pc + 1, pushEnd);
      var pcs := InstrPcs(bs, pc, pushEnd);
      assert pcs == [pc] + rest;
      forall i | 0 <= i < |bs| - pc ensures pcs[i] == pc + i {
        if i > 0 {
          assert pcs[i] == rest[i - 1];
        }
      }
    }
  }

  /** The immediate data bytes of the instruction with opcode `b`, as the Yellow Paper counts them. */
  function PushData(b: int): nat
  {
    if 0x60 <= b <= 0x7F then b - 0x5F else 0
  }

  /** No instruction start lies inside the immediate data of an earlier push instruction. */
  predicate NoPcInPushData(bs: seq<int>, pcs: seq<nat>)
  {
    forall i, j :: 0 <= i < j < |pcs| ==> pcs[i] < |bs| && pcs[i] + PushData(bs[pcs[i]]) < pcs[j]
  }

  /**
   * The source's bound counts PUSH32 (0x7F) as a one-byte instruction, so the
   * first byte of its immediate data is taken for an instruction.
   */
  lemma Push32Misindexed()
    ensures InstrPcs([0x7F, 0x60, 0x00], 0, AsWrittenPushEnd) == [0, 1]
    ensures !NoPcInPushData([0x7F, 0x60, 0x00], InstrPcs([0x7F, 0x60, 0x00], 0, AsWrittenPushEnd))
    ensures InstrPcs([0x7F, 0x60, 0x00], 0, YellowPaperPushEnd) == [0]
  {
    var bs := [0x7F, 0x60, 0x00];
    assert InstrPcs(bs, 3, AsWrittenPushEnd) == [];
    assert InstrPcs(bs, 1, AsWrittenPushEnd) == [1];
    assert InstrPcs(bs, 33, YellowPaperPushEnd) == [];
    var pcs := InstrPcs(bs, 0, AsWrittenPushEnd);
    assert pcs[0] + PushData(bs[pcs[0]]) == 32 >= pcs[1];
  }

  /** With the Yellow Paper's bound, every program counter found is an instruction boundary. */
  lemma CorrectedBoundaries(bs: seq<int>)
    ensures NoPcInPushData(bs, InstrPcs(bs, 0, YellowPaperPushEnd))
  {
    var pcs := InstrPcs(bs, 0, YellowPaperPushEnd);
    InstrPcsSteps(bs, 0, YellowPaperPushEnd);
    forall i, j | 0 <= i < j < |pcs|
      ensures pcs[i] < |bs| && pcs[i] + PushData(bs[pcs[i]]) < pcs[j]
    {
      assert pcs[i + 1] == pcs[i] + Width(bs[pcs[i]], YellowPaperPushEnd);
      assert i + 1 == j || pcs[i + 1] < pcs[j];
    }
  }

  // ---------------------------------------------------------------------------
  // source-map decoder

  /** One expanded source-map entry: start offset, length, source index, jump kind, modifier depth. */
  datatype SourceEntry = SourceEntry(start: int, length: int, file: int, jump: string, modifierDepth: int)

  /** The values the decoder starts from, `(0, 0, 0, '', 0)`. */
  const InitialEntry := SourceEntry(0, 0, 0, "", 0)

  /** Field `k` of a segment when it is present and not empty. */
  function FieldText(seg: string, k: nat): Option<string>
  {
    var fields := Split(seg, ':');
    if k < |fields| && fields[k] != "" then Some(fields[k]) else None
  }

  /** A numeric field: the previous value when it is missing, else `int(field)`. */
  function IntField(seg: string, k: nat, prev: int): Result<int, Error>
  {
    match FieldText(seg, k)
    case None => Ok(prev)
    case Some(t) => ToInt(t, 10)
  }

  /** Every numeric field the segment gives is a decimal literal. */
  predicate SegmentValid(seg: string)
  {
    forall k :: 0 <= k <= 4 && k != 3 && FieldText(seg, k).Some? ==> ParseInt(FieldText(seg, k).value, 10).Some?
  }

  /** One iteration of the decoding loop: each field given overrides the previous entry's. */
  function DecodeSegment(seg: string, prev: SourceEntry): (r: Result<SourceEntry, Error>)
    ensures r.Ok? <==> SegmentValid(seg)
    ensures r.Err? ==> exists k :: 0 <= k <= 4 && FieldText(seg, k).Some? && r.error == InvalidLiteral(FieldText(seg, k).value, 10)
  {
    var s :- IntField(seg, 0, prev.start);
    var l :- IntField(seg, 1, prev.length);
    var f :- IntField(seg, 2, prev.file);
    var j := match FieldText(seg, 3) case None => prev.jump case Some(t) => t;
    var m :- IntField(seg, 4, prev.modifierDepth);
    Ok(SourceEntry(s, l, f, j, m))
  }

  /** The last entry decoded so far, or the initial values before the first. */
  function Last(es: seq<SourceEntry>): SourceEntry
  {
    if es == [] then InitialEntry else es[|es| - 1]
  }

  /** Every segment of the list is valid. */
  predicate AllSegmentsValid(segs: seq<string>)
  {
    forall i :: 0 <= i < |segs| ==> SegmentValid(segs[i])
  }

  /** The entries of a list of segments, each decoded against the one before it. */
  function DecodeSegments(segs: seq<string>): (r: Result<seq<SourceEntry>, Error>)
    ensures r.Ok? <==> AllSegmentsValid(segs)
    ensures r.Ok? ==> |r.value| == |segs|
  {
    if segs == [] then Ok([])
    else
      assert forall i :: 0 <= i < |segs| - 1 ==> segs[..|segs| - 1][i] == segs[i];
      var init :- DecodeSegments(segs[..|segs| - 1]);
      var e :- DecodeSegment(segs[|segs| - 1], Last(init));
      Ok(init + [e])
  }

  /** The entries keyed by their position. */
  function MapOf(es: seq<SourceEntry>): (m: map<int, SourceEntry>)
    ensures forall i :: i in m <==> 0 <= i < |es|
    ensures forall i :: 0 <= i < |es| ==> m[i] == es[i]
  {
    map i | 0 <= i < |es| :: es[i]
  }

  /** The `for` loop of `srcmap`: the map from segment index to entry. */
  function Decode(raw: string): (r: Result<map<int, SourceEntry>, Error>)
    ensures r.Ok? <==> AllSegmentsValid(Split(raw, ';'))
    ensures r.Ok? ==> forall i :: i in r.value <==> 0 <= i <= Count(raw, ';')
  {
    var segs := Split(raw, ';');
    var d := DecodeSegments(segs);
    if d.Ok? then
      assert |d.value| == Count(raw, ';') + 1;
      Ok(MapOf(d.value))
    else Err(d.error)
  }

  /**
   * `srcmap`: empty when there is no bytecode or no source map; otherwise the
   * bytecode must read as bytes and every segment must decode, and there is
   * one entry per `;`-separated segment.
   */
  function SrcMap(bytecode: string, rawSourceMap: Option<string>): (r: Result<map<int, SourceEntry>, Error>)
    ensures bytecode == [] || rawSourceMap.None? ==> r == Ok(map[])
    ensures bytecode != [] && rawSourceMap.Some? ==>
      (r.Ok? <==> HexBytes(bytecode).Ok? && Decode(rawSourceMap.value).Ok?)
    ensures bytecode != [] && rawSourceMap.Some? && r.Ok? ==>
      forall i :: i in r.value <==> 0 <= i <= Count(rawSourceMap.value, ';')
    ensures bytecode != [] && rawSourceMap.Some? && r.Ok? ==> r == Decode(rawSourceMap.value)
  {
    if |bytecode| > 0 && rawSourceMap.Some? then
      match HexBytes(bytecode)
      case Err(e) => Err(e)
      case Ok(_) => Decode(rawSourceMap.value)
    else Ok(map[])
  }

  /** Once a prefix of the segments fails, the whole list fails with the same error. */
  lemma {:induction false} DecodeSegmentsPrefixError(segs: seq<string>, k: nat)
    requires k <= |segs| && DecodeSegments(segs[..k]).Err?
    ensures DecodeSegments(segs) == DecodeSegments(segs[..k])
    decreases |segs| - k
  {
    if k < |segs| {
      var t := segs[..k + 1];
      assert t[..|t| - 1] == segs[..k];
      DecodeSegmentsInitError(t);
      DecodeSegmentsPrefixError(segs, k + 1);
    } else {
      assert segs[..k] == segs;
    }
  }

  lemma DecodeSegmentsInitError(segs: seq<string>)
    requires segs != [] && DecodeSegments(segs[..|segs| - 1]).Err?
    ensures DecodeSegments(segs) == DecodeSegments(segs[..|segs| - 1])
  {
  }

  lemma MapOfSnoc(es: seq<SourceEntry>, e: SourceEntry)
    ensures MapOf(es + [e]) == MapOf(es)[|es| := e]
  {
  }

  /** One step of the decoding loop: the next entry extends the list, or its error is the error of the whole list. */
  lemma DecodeSegmentsStep(segs: seq<string>, i: nat, done: seq<SourceEntry>, e: Result<SourceEntry, Error>)
    requires i < |segs| && DecodeSegments(segs[..i]) == Ok(done) && e == DecodeSegment(segs[i], Last(done))
    ensures e.Err? ==> DecodeSegments(segs) == Err(e.error)
    ensures e.Ok? ==> DecodeSegments(segs[..i + 1]) == Ok(done + [e.value])
  {
    assert segs[..i + 1][..i] == segs[..i] && segs[..i + 1][i] == segs[i];
    if e.Err? {
      DecodeSegmentsPrefixError(segs, i + 1);
    }
  }

  /**
   * The body of `srcmap`'s decoding loop: the segment's fields, read in the
   * order `s, l, f, j, m`, override the carried values.
   */
  method ReadSegment(seg: string, s0: int, l0: int, f0: int, j0: string, m0: int) returns (r: Result<SourceEntry, Error>)
    ensures r == DecodeSegment(seg, SourceEntry(s0, l0, f0, j0, m0))
  {
    var s, l, f, j, m := s0, l0, f0, j0, m0;
    var fields := Split(seg, ':');
    if |fields| > 0 && fields[0] != "" {
      var v := ToInt(fields[0], 10);
      if v.Err? {
        return Err(v.error);
      }
      s := v.value;
    }
    if |fields| > 1 && fields[1] != "" {
      var v := ToInt(fields[1], 10);
      if v.Err? {
        return Err(v.error);
      }
      l := v.value;
    }
    if |fields| > 2 && fields[2] != "" {
      var v := ToInt(fields[2], 10);
      if v.Err? {
        return Err(v.error);
      }
      f := v.value;
    }
    if |fields| > 3 && fields[3] != "" {
      j := fields[3];
    }
    if |fields| > 4 && fields[4] != "" {
      var v := ToInt(fields[4], 10);
      if v.Err? {
        return Err(v.error);
      }
      m := v.value;
    }
    return Ok(SourceEntry(s, l, f, j, m));
  }

  /** `srcmap`'s decoding loop as the source writes it, carrying `s, l, f, j, m` from one segment to the next. */
  method DecodeSourceMap(raw: string) returns (r: Result<map<int, SourceEntry>, Error>)
    ensures r == Decode(raw)
  {
    var segs := Split(raw, ';');
    var srcmap: map<int, SourceEntry> := map[];
    var s, l, f, j, m := 0, 0, 0, "", 0;
    ghost var done: seq<SourceEntry> := [];
    for i := 0 to |segs|
      invariant DecodeSegments(segs[..i]) == Ok(done)
      invariant Last(done) == SourceEntry(s, l, f, j, m)
      invariant srcmap == MapOf(done)
    {
      var e := ReadSegment(segs[i], s, l, f, j, m);
      DecodeSegmentsStep(segs, i, done, e);
      if e.Err? {
        return Err(e.error);
      }
      s, l, f, j, m := e.value.start, e.value.length, e.value.file, e.value.jump, e.value.modifierDepth;
      MapOfSnoc(done, e.value);
      srcmap := srcmap[i := e.value];
      done := done + [e.value];
    }
    assert segs[..|segs|] == segs;
    return Ok(srcmap);
  }

  /**
   * `srcmap` as the source writes it: the bytes are read, the instruction
   * index is built (and, as in the source, not returned), then the segments
   * are decoded.
   */
  method SrcMapOf(bytecode: string, rawSourceMap: Option<string>) returns (r: Result<map<int, SourceEntry>, Error>)
    ensures r == SrcMap(bytecode, rawSourceMap)
  {
    if |bytecode| > 0 && rawSourceMap.Some? {
      var bs := HexBytes(bytecode);
      if bs.Err? {
        return Err(bs.error);
      }
      var instrToPc := IndexInstructions(bs.value, AsWrittenPushEnd);
      r := DecodeSourceMap(rawSourceMap.value);
    } else {
      r := Ok(map[]);
    }
  }

  // ---------------------------------------------------------------------------
  // properties of the decoder

  /** The last value given for field `k` among the segments, if any. */
  function LastGiven(segs: seq<string>, k: nat): Option<string>
  {
    if segs == [] then None
    else match FieldText(segs[|segs| - 1], k)
      case Some(t) => Some(t)
      case None => LastGiven(segs[..|segs| - 1], k)
  }

  /** A numeric field's value from its last given text, 0 when none was given. */
  function GivenInt(o: Option<string>): int
  {
    match o
    case None => 0
    case Some(t) => match ParseInt(t, 10) case Some(v) => v case None => 0
  }

  /** The jump field's value from its last given text, empty when none was given. */
  function GivenText(o: Option<string>): string
  {
    match o
    case None => ""
    case Some(t) => t
  }

  /** The entry after a list of segments holds, field by field, the last value any segment gave. */
  lemma {:induction false} LastEntryFields(segs: seq<string>)
    requires DecodeSegments(segs).Ok?
    ensures var e := Last(DecodeSegments(segs).value);
      && e.start == GivenInt(LastGiven(segs, 0))
      && e.length == GivenInt(LastGiven(segs, 1))
      && e.file == GivenInt(LastGiven(segs, 2))
      && e.jump == GivenText(LastGiven(segs, 3))
      && e.modifierDepth == GivenInt(LastGiven(segs, 4))
  {
    if segs != [] {
      LastEntryFields(segs[..|segs| - 1]);
    }
  }

  /** Decoding a prefix of the segments gives a prefix of the entries. */
  lemma {:induction false} DecodeSegmentsPrefix(segs: seq<string>, k: nat)
    requires DecodeSegments(segs).Ok? && k <= |segs|
    ensures DecodeSegments(segs[..k]) == Ok(DecodeSegments(segs).value[..k])
    decreases |segs|
  {
    if k < |segs| {
      var pre := segs[..|segs| - 1];
      assert pre[..k] == segs[..k];
      DecodeSegmentsPrefix(pre, k);
      var es := DecodeSegments(segs).value;
      var ps := DecodeSegments(pre).value;
      assert es[..|es| - 1] == ps;
      assert es[..k] == ps[..k];
    } else {
      assert segs[..k] == segs;
      assert DecodeSegments(segs).value[..k] == DecodeSegments(segs).value;
    }
  }

  /**
   * The Solidity compression rule: entry `i` of the decoded source map holds,
   * for each field, the value given by the last segment up to `i` that gives
   * one, or the initial value when none does.
   */
  lemma CarriedForward(raw: string, i: int)
    requires Decode(raw).Ok? && i in Decode(raw).value
    ensures var segs := Split(raw, ';')[..i + 1];
      var e := Decode(raw).value[i];
      && e.start == GivenInt(LastGiven(segs, 0))
      && e.length == GivenInt(LastGiven(segs, 1))
      && e.file == GivenInt(LastGiven(segs, 2))
      && e.jump == GivenText(LastGiven(segs, 3))
      && e.modifierDepth == GivenInt(LastGiven(segs, 4))
  {
    var segs := Split(raw, ';');
    var es := DecodeSegments(segs).value;
    DecodeSegmentsPrefix(segs, i + 1);
    LastEntryFields(segs[..i + 1]);
    assert Last(es[..i + 1]) == es[i];
  }

  /** An empty segment repeats the previous entry. */
  lemma EmptySegmentRepeats(prev: SourceEntry)
    ensures DecodeSegment("", prev) == Ok(prev)
  {
    assert Split("", ':') == [""];
  }

  /** An empty (but present) source map still has one segment, decoded to the initial values. */
  lemma EmptySourceMap()
    ensures Decode("") == Ok(map[0 := InitialEntry])
  {
    assert Split("", ';') == [""];
    EmptySegmentRepeats(InitialEntry);
    assert [""][..0] == [];
    assert DecodeSegments([""]) == Ok([] + [InitialEntry]);
    assert [] + [InitialEntry] == [InitialEntry];
    assert MapOf([InitialEntry]) == map[0 := InitialEntry];
  }
}
