/** The H.264 sequence parameter set parser of src/nalu_sniffer.c, and the syntax of section
    7.3.2.1.1 of ITU-T H.264 that it reads. */
module Sps {
  import opened BitString
  import opened BitReader

  // What the sniffer reports. Widths and heights are 16-bit, the rest are bytes.
  datatype Info = Info(profile: nat, level: nat, chroma: nat, bitDepth: nat, width: nat, height: nat)

  // Profiles that carry chroma format, bit depths and scaling matrices.
  predicate IsHigh(profile: nat) {
    profile in {100, 110, 122, 244, 44, 83, 86, 118, 128, 138, 139, 134}
  }

  function U8(v: nat): (r: nat) { v % 256 }
  function U16(v: int): (r: nat) { v % 0x1_0000 }

  // C's remainder keeps the sign of the dividend.
  function CMod256(v: int): (r: int) { if v >= 0 then v % 256 else -((-v) % 256) }

  // --- The parser on plain bits ---

  // One scaling list: deltas are read until the running scale hits zero.
  function SkipList(bits: seq<bool>, left: nat, last: int, next: int): (rest: seq<bool>)
    decreases left
  {
    if left == 0 then bits
    else if next == 0 then SkipList(bits, left - 1, last, next)
    else
      var (delta, rest) := ReadSe(bits);
      var n := CMod256(last + delta + 256);
      SkipList(rest, left - 1, if n == 0 then last else n, n)
  }

  function ListSize(i: nat): (n: nat) { if i < 6 then 16 else 64 }

  function SkipLists(bits: seq<bool>, i: nat, limit: nat): (rest: seq<bool>)
    decreases limit - i
  {
    if i >= limit then bits
    else
      var (present, rest) := Read(bits, 1);
      SkipLists(if present != 0 then SkipList(rest, ListSize(i), 8, 8) else rest, i + 1, limit)
  }

  function SkipMatrix(bits: seq<bool>, chroma: nat): (rest: seq<bool>) {
    var (matrix, b1) := Read(bits, 1);
    if matrix != 0 then SkipLists(b1, 0, if chroma != 3 then 8 else 12) else b1
  }

  // Chroma format, bit depth and the bits after the high-profile fields.
  function ParseHigh(bits: seq<bool>): (r: (nat, nat, seq<bool>)) {
    var (c, b1) := ReadUe(bits);
    var chroma := U8(c);
    var b2 := if chroma == 3 then Read(b1, 1).1 else b1;
    var (depth, b3) := ReadUe(b2);
    var (_, b4) := ReadUe(b3);
    var (_, b5) := Read(b4, 1);
    (chroma, U8(depth + 8), SkipMatrix(b5, chroma))
  }

  function SkipSes(bits: seq<bool>, n: nat): (rest: seq<bool>)
    decreases n
  {
    if n == 0 then bits else SkipSes(ReadSe(bits).1, n - 1)
  }

  function ParsePoc(bits: seq<bool>): (rest: seq<bool>) {
    var (kind, b1) := ReadUe(bits);
    if kind == 0 then ReadUe(b1).1
    else if kind == 1 then
      var (_, b2) := Read(b1, 1);
      var (_, b3) := ReadSe(b2);
      var (_, b4) := ReadSe(b3);
      var (n, b5) := ReadUe(b4);
      SkipSes(b5, n)
    else b1
  }

  function CropX(chroma: nat): (n: nat) { if chroma == 1 || chroma == 2 then 2 else 1 }
  function CropY(chroma: nat, mbsOnly: bool): (n: nat) {
    if chroma == 1 then (if mbsOnly then 2 else 4)
    else if chroma == 2 then (if mbsOnly then 1 else 2)
    else 1
  }

  // The frame size and the cropping rectangle.
  function ParseCrop(bits: seq<bool>, chroma: nat, mbsOnly: bool, width: nat, height: nat): (r: (nat, nat)) {
    var (flag, b1) := Read(bits, 1);
    if flag == 0 then (width, height)
    else
      var (left, b2) := ReadUe(b1);
      var (right, b3) := ReadUe(b2);
      var (top, b4) := ReadUe(b3);
      var (bottom, _) := ReadUe(b4);
      (U16(width - (left + right) * CropX(chroma)), U16(height - (top + bottom) * CropY(chroma, mbsOnly)))
  }

  function ParseFrame(bits: seq<bool>, chroma: nat): (r: (nat, nat)) {
    var (_, b1) := ReadUe(bits);
    var (_, b2) := Read(b1, 1);
    var (w, b3) := ReadUe(b2);
    var (h, b4) := ReadUe(b3);
    var (only, b5) := Read(b4, 1);
    var b6 := if only != 0 then b5 else Read(b5, 1).1;
    var (_, b7) := Read(b6, 1);
    var height := U16((h + 1) * 16);
    ParseCrop(b7, chroma, only != 0, U16((w + 1) * 16), if only != 0 then height else U16(height * 2))
  }

  // Everything after the parameter set's identifier: chroma format, bit depth, width and height.
  function ParseBody(bits: seq<bool>, high: bool, bitDepth: nat): (r: (nat, nat, nat, nat)) {
    var (chroma, depth, b1) := if high then ParseHigh(bits) else (1, bitDepth, bits);
    var (_, b2) := ReadUe(b1);
    var (width, height) := ParseFrame(ParsePoc(b2), chroma);
    (chroma, depth, width, height)
  }

  // The parser; `prior` is what the caller's record held before.
  function ParseSps(bits: seq<bool>, prior: Info): (info: Info) {
    var (_, b1) := Read(bits, 8);
    var (profile, b2) := Read(b1, 8);
    var (_, b3) := Read(b2, 8);
    var (level, b4) := Read(b3, 8);
    var (_, b5) := ReadUe(b4);
    var (chroma, depth, width, height) := ParseBody(b5, IsHigh(U8(profile)), prior.bitDepth);
    Info(U8(profile), U8(level), chroma, depth, width, height)
  }

  // --- The syntax, written out ---

  function PutBit(b: bool, tail: seq<bool>): (bits: seq<bool>) { [b] + tail }
  function PutByte(v: nat, tail: seq<bool>): (bits: seq<bool>) { ToBits(v, 8) + tail }
  function PutUe(v: nat, tail: seq<bool>): (bits: seq<bool>) { UeCode(v) + tail }
  function PutSe(v: int, tail: seq<bool>): (bits: seq<bool>) { SeCode(v) + tail }

  predicate UeRange(v: nat) { v < 0x7FFF_FFFF }
  predicate SeRange(v: int) { -0x3FFF_FFFF <= v <= 0x3FFF_FFFF }

  datatype ScalingList = Absent | Present(deltas: seq<int>)
  datatype Matrix = NoMatrix | Lists(lists: seq<ScalingList>)
  datatype High = NotHigh | High(chroma: nat, separatePlanes: bool, lumaDepth: nat, chromaDepth: nat,
                                 bypass: bool, matrix: Matrix)
  datatype Poc = PocLsb(log2: nat) | PocCycle(alwaysZero: bool, nonRef: int, topToBottom: int, cycle: seq<int>) | PocOutput(kind: nat)
  datatype Crop = NoCrop | Crop(left: nat, right: nat, top: nat, bottom: nat)
  datatype Frame = Frame(refFrames: nat, gaps: bool, widthMbs: nat, heightUnits: nat,
                         mbsOnly: bool, adaptive: bool, direct8x8: bool, crop: Crop)
  datatype Syntax = Syntax(nalHeader: nat, profile: nat, constraints: nat, level: nat, id: nat,
                           high: High, log2FrameNum: nat, poc: Poc, frame: Frame)

  function PutSes(vs: seq<int>, tail: seq<bool>): (bits: seq<bool>) {
    if vs == [] then tail else PutSe(vs[0], PutSes(vs[1..], tail))
  }

  function PutLists(lists: seq<ScalingList>, tail: seq<bool>): (bits: seq<bool>) {
    if lists == [] then tail
    else if lists[0].Absent? then PutBit(false, PutLists(lists[1..], tail))
    else PutBit(true, PutSes(lists[0].deltas, PutLists(lists[1..], tail)))
  }

  function PutMatrix(m: Matrix, tail: seq<bool>): (bits: seq<bool>) {
    if m.NoMatrix? then PutBit(false, tail) else PutBit(true, PutLists(m.lists, tail))
  }

  function PutHigh(h: High, tail: seq<bool>): (bits: seq<bool>)
    requires h.High?
  {
    var body := PutUe(h.lumaDepth, PutUe(h.chromaDepth, PutBit(h.bypass, PutMatrix(h.matrix, tail))));
    PutUe(h.chroma, if h.chroma == 3 then PutBit(h.separatePlanes, body) else body)
  }

  function PutPoc(p: Poc, tail: seq<bool>): (bits: seq<bool>) {
    match p
    case PocLsb(log2) => PutUe(0, PutUe(log2, tail))
    case PocCycle(zero, nonRef, topToBottom, cycle) =>
      PutUe(1, PutBit(zero, PutSe(nonRef, PutSe(topToBottom, PutUe(|cycle|, PutSes(cycle, tail))))))
    case PocOutput(kind) => PutUe(kind, tail)
  }

  function PutCrop(c: Crop, tail: seq<bool>): (bits: seq<bool>) {
    match c
    case NoCrop => PutBit(false, tail)
    case Crop(left, right, top, bottom) => PutBit(true, PutUe(left, PutUe(right, PutUe(top, PutUe(bottom, tail)))))
  }

  function PutFrame(f: Frame, tail: seq<bool>): (bits: seq<bool>) {
    var body := PutBit(f.direct8x8, PutCrop(f.crop, tail));
    PutUe(f.refFrames, PutBit(f.gaps, PutUe(f.widthMbs, PutUe(f.heightUnits,
      PutBit(f.mbsOnly, if f.mbsOnly then body else PutBit(f.adaptive, body))))))
  }

  function PutBody(s: Syntax, tail: seq<bool>): (bits: seq<bool>) {
    var body := PutUe(s.log2FrameNum, PutPoc(s.poc, PutFrame(s.frame, tail)));
    if s.high.High? then PutHigh(s.high, body) else body
  }

  // The bits of the whole parameter set, followed by whatever comes after it.
  function PutSps(s: Syntax, tail: seq<bool>): (bits: seq<bool>) {
    PutByte(s.nalHeader, PutByte(s.profile, PutByte(s.constraints, PutByte(s.level, PutUe(s.id, PutBody(s, tail))))))
  }

  // --- Fields in range ---

  // The deltas of a list are exactly those the syntax transmits for it.
  predicate ListFits(deltas: seq<int>, left: nat, last: int, next: int)
    decreases left
  {
    if left == 0 then deltas == []
    else if next == 0 then ListFits(deltas, left - 1, last, next)
    else
      deltas != [] && -128 <= deltas[0] <= 127 &&
      var n := CMod256(last + deltas[0] + 256);
      ListFits(deltas[1..], left - 1, if n == 0 then last else n, n)
  }

  predicate ListsFit(lists: seq<ScalingList>, i: nat, limit: nat)
    decreases limit - i
  {
    if i >= limit then lists == []
    else lists != [] && (lists[0].Present? ==> ListFits(lists[0].deltas, ListSize(i), 8, 8)) && ListsFit(lists[1..], i + 1, limit)
  }

  // The profiles whose parameter sets carry the high-profile fields, section 7.3.2.1.1.
  predicate CarriesHigh(profile: nat) {
    profile in {44, 83, 86, 100, 110, 118, 122, 128, 134, 135, 138, 139, 244}
  }

  predicate HighOk(h: High) {
    h.High? && h.chroma <= 3 && h.lumaDepth <= 6 && h.chromaDepth <= 6 &&
    (h.matrix.Lists? ==> ListsFit(h.matrix.lists, 0, if h.chroma != 3 then 8 else 12))
  }

  predicate PocOk(p: Poc) {
    match p
    case PocLsb(log2) => UeRange(log2)
    case PocCycle(_, a, b, cycle) =>
      SeRange(a) && SeRange(b) && UeRange(|cycle|) && forall i :: 0 <= i < |cycle| ==> SeRange(cycle[i])
    case PocOutput(kind) => 2 <= kind && UeRange(kind)
  }

  // The coded picture in luma samples, and the crop units of section 7.4.2.1.1.
  function CodedWidth(f: Frame): (n: nat) { (f.widthMbs + 1) * 16 }
  function CodedHeight(f: Frame): (n: nat) { (f.heightUnits + 1) * 16 * (if f.mbsOnly then 1 else 2) }
  function UnitX(chroma: nat): (n: nat) { if chroma == 1 || chroma == 2 then 2 else 1 }
  function UnitY(chroma: nat, mbsOnly: bool): (n: nat) { (if chroma == 1 then 2 else 1) * (if mbsOnly then 1 else 2) }

  function Sides(c: Crop): (n: nat) { if c.NoCrop? then 0 else c.left + c.right }
  function Rows(c: Crop): (n: nat) { if c.NoCrop? then 0 else c.top + c.bottom }

  predicate FrameOk(f: Frame, chroma: nat) {
    && UeRange(f.refFrames)
    && CodedWidth(f) < 0x1_0000 && CodedHeight(f) < 0x1_0000
    && (f.crop.Crop? ==> UeRange(f.crop.left) && UeRange(f.crop.right) && UeRange(f.crop.top) && UeRange(f.crop.bottom))
    && Sides(f.crop) * UnitX(chroma) <= CodedWidth(f)
    && Rows(f.crop) * UnitY(chroma, f.mbsOnly) <= CodedHeight(f)
  }

  // The picture that is shown.
  function Width(f: Frame, chroma: nat): (n: int) { CodedWidth(f) - Sides(f.crop) * UnitX(chroma) }
  function Height(f: Frame, chroma: nat): (n: int) { CodedHeight(f) - Rows(f.crop) * UnitY(chroma, f.mbsOnly) }

  function Chroma(s: Syntax): (n: nat) { if s.high.High? then s.high.chroma else 1 }

  predicate InRange(s: Syntax) {
    && s.nalHeader < 256 && s.profile < 256 && s.constraints < 256 && s.level < 256
    && UeRange(s.id) && UeRange(s.log2FrameNum)
    && (if CarriesHigh(s.profile) then HighOk(s.high) else s.high.NotHigh?)
    && PocOk(s.poc) && FrameOk(s.frame, Chroma(s))
  }

  // --- Reading back what was written ---

  lemma GetBit(b: bool, tail: seq<bool>)
    ensures Read(PutBit(b, tail), 1) == (if b then 1 else 0, tail)
  {
    PeekOne([b] + tail);
  }

  lemma GetByte(v: nat, tail: seq<bool>)
    requires v < 256
    ensures Read(PutByte(v, tail), 8) == (v, tail)
  {
    Pow2Values();
    ReadBack(v, 8, tail);
  }

  lemma GetUe(v: nat, tail: seq<bool>)
    requires UeRange(v)
    ensures ReadUe(PutUe(v, tail)) == (v, tail)
  {
    UeRoundTrip(v, tail);
  }

  lemma GetSe(v: int, tail: seq<bool>)
    requires SeRange(v)
    ensures ReadSe(PutSe(v, tail)) == (v, tail)
  {
    SeRoundTrip(v, tail);
  }

  lemma {:induction false} GetList(deltas: seq<int>, left: nat, last: int, next: int, tail: seq<bool>)
    requires ListFits(deltas, left, last, next)
    ensures SkipList(PutSes(deltas, tail), left, last, next) == tail
    decreases left
  {
    hide PutSe;
    hide ReadSe;
    if left > 0 {
      if next == 0 {
        GetList(deltas, left - 1, last, next, tail);
      } else {
        var n := CMod256(last + deltas[0] + 256);
        GetSe(deltas[0], PutSes(deltas[1..], tail));
        GetList(deltas[1..], left - 1, if n == 0 then last else n, n, tail);
      }
    }
  }

  lemma {:induction false} GetLists(lists: seq<ScalingList>, i: nat, limit: nat, tail: seq<bool>)
    requires ListsFit(lists, i, limit)
    ensures SkipLists(PutLists(lists, tail), i, limit) == tail
    decreases limit - i
  {
    hide PutBit;
    hide Read;
    hide SkipList;
    hide ListFits;
    if i < limit {
      var more := PutLists(lists[1..], tail);
      GetLists(lists[1..], i + 1, limit, tail);
      if lists[0].Present? {
        GetBit(true, PutSes(lists[0].deltas, more));
        GetList(lists[0].deltas, ListSize(i), 8, 8, more);
      } else {
        GetBit(false, more);
      }
    }
  }

  lemma {:induction false} GetHigh(h: High, tail: seq<bool>)
    requires HighOk(h)
    ensures ParseHigh(PutHigh(h, tail)) == (h.chroma, h.lumaDepth + 8, tail)
  {
    hide PutUe;
    hide ReadUe;
    hide PutBit;
    hide Read;
    hide SkipLists;
    hide PutLists;
    hide ListsFit;
    var matrix := PutMatrix(h.matrix, tail);
    var bypass := PutBit(h.bypass, matrix);
    var depths := PutUe(h.chromaDepth, bypass);
    var body := PutUe(h.lumaDepth, depths);
    GetUe(h.chroma, if h.chroma == 3 then PutBit(h.separatePlanes, body) else body);
    GetBit(h.separatePlanes, body);
    GetUe(h.lumaDepth, depths);
    GetUe(h.chromaDepth, bypass);
    GetBit(h.bypass, matrix);
    if h.matrix.Lists? {
      GetBit(true, PutLists(h.matrix.lists, tail));
      GetLists(h.matrix.lists, 0, if h.chroma != 3 then 8 else 12, tail);
    } else {
      GetBit(false, tail);
    }
  }

  lemma {:induction false} GetSes(vs: seq<int>, tail: seq<bool>)
    requires forall i :: 0 <= i < |vs| ==> SeRange(vs[i])
    ensures SkipSes(PutSes(vs, tail), |vs|) == tail
  {
    hide PutSe;
    hide ReadSe;
    if vs != [] {
      GetSe(vs[0], PutSes(vs[1..], tail));
      GetSes(vs[1..], tail);
    }
  }

  lemma {:induction false} GetPoc(p: Poc, tail: seq<bool>)
    requires PocOk(p)
    ensures ParsePoc(PutPoc(p, tail)) == tail
  {
    hide PutUe;
    hide ReadUe;
    hide PutSe;
    hide ReadSe;
    hide PutBit;
    hide Read;
    hide SkipSes;
    hide PutSes;
    match p
    case PocLsb(log2) =>
      GetUe(0, PutUe(log2, tail));
      GetUe(log2, tail);
    case PocCycle(zero, nonRef, topToBottom, cycle) =>
      var b5 := PutSes(cycle, tail);
      var b4 := PutUe(|cycle|, b5);
      var b3 := PutSe(topToBottom, b4);
      var b2 := PutSe(nonRef, b3);
      GetUe(1, PutBit(zero, b2));
      GetBit(zero, b2);
      GetSe(nonRef, b3);
      GetSe(topToBottom, b4);
      GetUe(|cycle|, b5);
      GetSes(cycle, tail);
    case PocOutput(kind) =>
      GetUe(kind, tail);
  }

  lemma {:induction false} GetCrop(f: Frame, chroma: nat, tail: seq<bool>)
    requires FrameOk(f, chroma)
    ensures ParseCrop(PutCrop(f.crop, tail), chroma, f.mbsOnly, CodedWidth(f), CodedHeight(f)) ==
            (Width(f, chroma), CodedHeight(f) - Rows(f.crop) * CropY(chroma, f.mbsOnly))
  {
    hide PutUe;
    hide ReadUe;
    hide PutBit;
    hide Read;
    SizeFits(f, chroma);
    hide U16;
    hide CropX;
    hide CropY;
    hide Width;
    hide CodedWidth;
    hide CodedHeight;
    hide UnitX;
    hide UnitY;
    match f.crop
    case NoCrop => GetBit(false, tail);
    case Crop(left, right, top, bottom) =>
      var b4 := PutUe(bottom, tail);
      var b3 := PutUe(top, b4);
      var b2 := PutUe(right, b3);
      GetBit(true, PutUe(left, b2));
      GetUe(left, b2);
      GetUe(right, b3);
      GetUe(top, b4);
      GetUe(bottom, tail);
  }

  // In range, 16 bits lose nothing.
  lemma SizeFits(f: Frame, chroma: nat)
    requires FrameOk(f, chroma)
    ensures U16(CodedWidth(f) - Sides(f.crop) * CropX(chroma)) == Width(f, chroma)
    ensures U16(CodedHeight(f) - Rows(f.crop) * CropY(chroma, f.mbsOnly)) ==
            CodedHeight(f) - Rows(f.crop) * CropY(chroma, f.mbsOnly)
    ensures f.crop.NoCrop? ==> Width(f, chroma) == CodedWidth(f) && Rows(f.crop) * CropY(chroma, f.mbsOnly) == 0
  {
    CropFits(Rows(f.crop), chroma, f.mbsOnly);
  }

  // The parser's vertical crop unit is never larger than the standard's.
  lemma CropFits(rows: nat, chroma: nat, mbsOnly: bool)
    ensures rows * CropY(chroma, mbsOnly) <= rows * UnitY(chroma, mbsOnly)
  {
  }

  lemma {:induction false} GetFrame(f: Frame, chroma: nat, tail: seq<bool>)
    requires FrameOk(f, chroma)
    ensures ParseFrame(PutFrame(f, tail), chroma) ==
            (Width(f, chroma), CodedHeight(f) - Rows(f.crop) * CropY(chroma, f.mbsOnly))
  {
    hide PutUe;
    hide ReadUe;
    hide PutBit;
    hide Read;
    hide ParseCrop;
    hide PutCrop;
    var crop := PutCrop(f.crop, tail);
    var body := PutBit(f.direct8x8, crop);
    var only := PutBit(f.mbsOnly, if f.mbsOnly then body else PutBit(f.adaptive, body));
    var h := PutUe(f.heightUnits, only);
    var w := PutUe(f.widthMbs, h);
    GetUe(f.refFrames, PutBit(f.gaps, w));
    GetBit(f.gaps, w);
    GetUe(f.widthMbs, h);
    GetUe(f.heightUnits, only);
    GetBit(f.mbsOnly, if f.mbsOnly then body else PutBit(f.adaptive, body));
    GetBit(f.adaptive, body);
    GetBit(f.direct8x8, crop);
    GetCrop(f, chroma, tail);
  }

  // The parser knows all of them but one.
  lemma Profiles(profile: nat)
    ensures IsHigh(profile) <==> CarriesHigh(profile) && profile != 135
  {
  }

  lemma HighIffProfile(s: Syntax)
    requires InRange(s)
    ensures CarriesHigh(s.profile) <==> s.high.High?
  {
  }

  function Depth(s: Syntax, prior: Info): (n: nat) { if s.high.High? then s.high.lumaDepth + 8 else prior.bitDepth }

  // The height as the parser crops it.
  function CroppedHeight(s: Syntax): (n: int) {
    CodedHeight(s.frame) - Rows(s.frame.crop) * CropY(Chroma(s), s.frame.mbsOnly)
  }

  lemma {:induction false} GetBody(s: Syntax, tail: seq<bool>, prior: Info)
    requires InRange(s)
    ensures ParseBody(PutBody(s, tail), s.high.High?, prior.bitDepth) ==
            (Chroma(s), Depth(s, prior), Width(s.frame, Chroma(s)), CroppedHeight(s))
  {
    hide PutUe;
    hide ReadUe;
    hide ParseHigh;
    hide PutHigh;
    hide ParsePoc;
    hide PutPoc;
    hide ParseFrame;
    hide PutFrame;
    hide HighOk;
    hide IsHigh;
    hide CarriesHigh;
    hide PocOk;
    hide FrameOk;
    HighIffProfile(s);
    var frame := PutFrame(s.frame, tail);
    var poc := PutPoc(s.poc, frame);
    var body := PutUe(s.log2FrameNum, poc);
    if s.high.High? { GetHigh(s.high, body); }
    GetUe(s.log2FrameNum, poc);
    GetPoc(s.poc, frame);
    GetFrame(s.frame, Chroma(s), tail);
  }

  // The fields up to the identifier are read back, whatever the profile.
  lemma {:induction false} GetLead(s: Syntax, tail: seq<bool>, prior: Info)
    requires InRange(s)
    ensures var (chroma, depth, width, height) := ParseBody(PutBody(s, tail), IsHigh(s.profile), prior.bitDepth);
      ParseSps(PutSps(s, tail), prior) == Info(s.profile, s.level, chroma, depth, width, height)
  {
    hide PutUe;
    hide ReadUe;
    hide PutByte;
    hide Read;
    hide ParseBody;
    hide PutBody;
    hide HighOk;
    hide IsHigh;
    hide CarriesHigh;
    hide PocOk;
    hide FrameOk;
    var body := PutBody(s, tail);
    var id := PutUe(s.id, body);
    var level := PutByte(s.level, id);
    var constraints := PutByte(s.constraints, level);
    GetByte(s.nalHeader, PutByte(s.profile, constraints));
    GetByte(s.profile, constraints);
    GetByte(s.constraints, level);
    GetByte(s.level, id);
    GetUe(s.id, body);
  }

  // All the parser reports, its height in its own crop units.
  lemma {:induction false} ParseBack(s: Syntax, tail: seq<bool>, prior: Info)
    requires InRange(s) && s.profile != 135
    ensures var info := ParseSps(PutSps(s, tail), prior);
      && info.profile == s.profile && info.level == s.level && info.chroma == Chroma(s)
      && info.bitDepth == Depth(s, prior)
      && info.width == Width(s.frame, Chroma(s)) && info.height == CroppedHeight(s)
  {
    hide ParseSps;
    hide PutSps;
    hide ParseBody;
    hide PutBody;
    hide IsHigh;
    hide CarriesHigh;
    hide InRange;
    hide CroppedHeight;
    hide Width;
    HighIffProfile(s);
    Profiles(s.profile);
    GetLead(s, tail, prior);
    GetBody(s, tail, prior);
  }

  // The parser gives back what was written.
  predicate GivenBack(s: Syntax, info: Info) {
    && info.profile == s.profile && info.level == s.level && info.chroma == Chroma(s)
    && info.width == Width(s.frame, Chroma(s))
    && (info.height == Height(s.frame, Chroma(s)) <==>
        s.frame.mbsOnly || Chroma(s) == 1 || Chroma(s) == 2 || Rows(s.frame.crop) == 0)
  }

  /** Writing a parameter set of any profile but 135, with every field in range, and parsing it gives
      back its profile, level, chroma format and width; and its height exactly when the picture is
      progressive, or 4:2:0 or 4:2:2, or not cropped vertically. */
  lemma {:induction false} SpsRoundTrip(s: Syntax, tail: seq<bool>, prior: Info)
    requires InRange(s)
    ensures s.profile != 135 ==> GivenBack(s, ParseSps(PutSps(s, tail), prior))
  {
    hide ParseSps;
    hide PutSps;
    hide InRange;
    hide Width;
    hide CropY;
    hide UnitY;
    hide Rows;
    hide CodedHeight;
    if s.profile != 135 {
      ParseBack(s, tail, prior);
      HeightIff(Rows(s.frame.crop), Chroma(s), s.frame.mbsOnly);
    }
  }

  // A 4:4:4 picture of 1920 by 1088, profile 135.
  function Unknown(): (s: Syntax) {
    Syntax(0x67, 135, 0, 40, 0, High(3, false, 0, 0, false, NoMatrix), 0, PocOutput(2),
           Frame(1, false, 119, 67, true, false, true, NoCrop))
  }

  /** Profile 135 is not known to the parser: whatever its parameter sets say, 4:2:0 is reported. */
  lemma {:induction false} UnknownProfile(s: Syntax, tail: seq<bool>, prior: Info)
    requires InRange(s) && s.profile == 135
    ensures ParseSps(PutSps(s, tail), prior).chroma == 1
    ensures InRange(Unknown()) && Unknown().profile == 135 && Chroma(Unknown()) == 3
  {
    hide ParseSps;
    hide PutSps;
    hide PutBody;
    hide CarriesHigh;
    hide ReadUe;
    hide ParseFrame;
    hide ParsePoc;
    Profiles(135);
    GetLead(s, tail, prior);
    UnknownInRange();
  }

  lemma UnknownInRange()
    ensures InRange(Unknown())
  {
  }

  /** The parser reads a profile's parameter sets rightly, all of them, if and only if it is not 135. */
  lemma {:induction false} ProfileReadIff(profile: nat)
    requires profile < 256
    ensures (forall s: Syntax, tail: seq<bool>, prior: Info | InRange(s) && s.profile == profile ::
               GivenBack(s, ParseSps(PutSps(s, tail), prior))) <==> profile != 135
  {
    hide ParseSps;
    hide PutSps;
    hide InRange;
    if profile != 135 {
      forall s: Syntax, tail: seq<bool>, prior: Info | InRange(s) && s.profile == profile
        ensures GivenBack(s, ParseSps(PutSps(s, tail), prior))
      {
        SpsRoundTrip(s, tail, prior);
      }
    } else {
      var prior := Info(0, 0, 0, 0, 0, 0);
      UnknownInRange();
      UnknownProfile(Unknown(), [], prior);
      assert !GivenBack(Unknown(), ParseSps(PutSps(Unknown(), []), prior));
    }
  }

  lemma HeightIff(rows: nat, chroma: nat, mbsOnly: bool)
    ensures rows * CropY(chroma, mbsOnly) == rows * UnitY(chroma, mbsOnly) <==>
            mbsOnly || chroma == 1 || chroma == 2 || rows == 0
  {
  }

  /** An interlaced 4:4:4 picture of 1920 x 1080 that is reported as 1920 x 1084. */
  lemma InterlacedCropMiscounted(tail: seq<bool>, prior: Info) returns (s: Syntax)
    ensures InRange(s) && Width(s.frame, Chroma(s)) == 1920 && Height(s.frame, Chroma(s)) == 1080
    ensures ParseSps(PutSps(s, tail), prior).height == 1084
  {
    hide ParseSps;
    hide PutSps;
    s := Syntax(0x67, 244, 0, 40, 0, High(3, false, 0, 0, false, NoMatrix), 0, PocOutput(2),
                Frame(1, false, 119, 33, false, false, true, Crop(0, 0, 0, 4)));
    ParseBack(s, tail, prior);
  }
}
