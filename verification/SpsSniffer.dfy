/** sniff_h264_sps as it runs: reads through the 64-bit cache, with the scaling-list and
    picture-order loops, filling the caller's record. */
module SpsSniffer {
  import opened BitString
  import opened BitReader
  import opened Sps

  method ReadScalingList(r: Reader, size: nat)
    requires r.Valid()
    modifies r`next, r`cache, r`bitsLeft
    ensures r.Valid() && r.Rest() == SkipList(old(r.Rest()), size, 8, 8)
  {
    hide ReadSe;
    var last, next := 8, 8;
    for j := 0 to size
      invariant r.Valid()
      invariant SkipList(r.Rest(), size - j, last, next) == SkipList(old(r.Rest()), size, 8, 8)
    {
      if next != 0 {
        var delta := r.ReadSeBits();
        next := CMod256(last + delta + 256);
      }
      last := if next == 0 then last else next;
    }
  }

  method ReadScalingLists(r: Reader, limit: nat)
    requires r.Valid()
    modifies r`next, r`cache, r`bitsLeft
    ensures r.Valid() && r.Rest() == SkipLists(old(r.Rest()), 0, limit)
  {
    hide Read;
    hide CachedRead;
    hide Served;
    hide SkipList;
    for i := 0 to limit
      invariant r.Valid()
      invariant SkipLists(r.Rest(), i, limit) == SkipLists(old(r.Rest()), 0, limit)
    {
      var present := r.ReadBits(1);
      if present != 0 { ReadScalingList(r, if i < 6 then 16 else 64); }
    }
  }

  method ReadMatrix(r: Reader, chroma: nat)
    requires r.Valid()
    modifies r`next, r`cache, r`bitsLeft
    ensures r.Valid() && r.Rest() == SkipMatrix(old(r.Rest()), chroma)
  {
    hide Read;
    hide CachedRead;
    hide Served;
    hide SkipLists;
    var matrix := r.ReadBits(1);
    if matrix != 0 { ReadScalingLists(r, if chroma != 3 then 8 else 12); }
  }

  method ReadHigh(r: Reader) returns (chroma: nat, bitDepth: nat)
    requires r.Valid()
    modifies r`next, r`cache, r`bitsLeft
    ensures r.Valid() && (chroma, bitDepth, r.Rest()) == ParseHigh(old(r.Rest()))
  {
    hide Read;
    hide CachedRead;
    hide Served;
    hide ReadUe;
    hide SkipMatrix;
    var c := r.ReadUeBits();
    chroma := U8(c);
    if chroma == 3 { var _ := r.ReadBits(1); }
    var depth := r.ReadUeBits();
    bitDepth := U8(depth + 8);
    var _ := r.ReadUeBits();
    var _ := r.ReadBits(1);
    ReadMatrix(r, chroma);
  }

  method ReadOffsets(r: Reader, n: nat)
    requires r.Valid()
    modifies r`next, r`cache, r`bitsLeft
    ensures r.Valid() && r.Rest() == SkipSes(old(r.Rest()), n)
  {
    hide ReadSe;
    for i := 0 to n
      invariant r.Valid()
      invariant SkipSes(r.Rest(), n - i) == SkipSes(old(r.Rest()), n)
    {
      var _ := r.ReadSeBits();
    }
  }

  method ReadPicOrder(r: Reader)
    requires r.Valid()
    modifies r`next, r`cache, r`bitsLeft
    ensures r.Valid() && r.Rest() == ParsePoc(old(r.Rest()))
  {
    hide Read;
    hide CachedRead;
    hide Served;
    hide ReadUe;
    hide ReadSe;
    hide SkipSes;
    var kind := r.ReadUeBits();
    if kind == 0 {
      var _ := r.ReadUeBits();
    } else if kind == 1 {
      var _ := r.ReadBits(1);
      var _ := r.ReadSeBits();
      var _ := r.ReadSeBits();
      var n := r.ReadUeBits();
      ReadOffsets(r, n);
    }
  }

  method ReadCrop(r: Reader, chroma: nat, mbsOnly: bool, width: nat, height: nat) returns (w: nat, h: nat)
    requires r.Valid()
    modifies r`next, r`cache, r`bitsLeft
    ensures r.Valid() && (w, h) == ParseCrop(old(r.Rest()), chroma, mbsOnly, width, height)
  {
    hide Read;
    hide CachedRead;
    hide Served;
    hide ReadUe;
    w, h := width, height;
    var flag := r.ReadBits(1);
    if flag != 0 {
      var left := r.ReadUeBits();
      var right := r.ReadUeBits();
      var top := r.ReadUeBits();
      var bottom := r.ReadUeBits();
      w := U16(w - (left + right) * CropX(chroma));
      h := U16(h - (top + bottom) * CropY(chroma, mbsOnly));
    }
  }

  method ReadFrame(r: Reader, chroma: nat) returns (width: nat, height: nat)
    requires r.Valid()
    modifies r`next, r`cache, r`bitsLeft
    ensures r.Valid() && (width, height) == ParseFrame(old(r.Rest()), chroma)
  {
    hide Read;
    hide CachedRead;
    hide Served;
    hide ReadUe;
    hide ParseCrop;
    var _ := r.ReadUeBits();
    var _ := r.ReadBits(1);
    var w := r.ReadUeBits();
    var h := r.ReadUeBits();
    width := U16((w + 1) * 16);
    height := U16((h + 1) * 16);
    var only := r.ReadBits(1);
    if only == 0 {
      height := U16(height * 2);
      var _ := r.ReadBits(1);
    }
    var _ := r.ReadBits(1);
    width, height := ReadCrop(r, chroma, only != 0, width, height);
  }

  method ReadBody(r: Reader, high: bool, prior: nat) returns (chroma: nat, bitDepth: nat, width: nat, height: nat)
    requires r.Valid()
    modifies r`next, r`cache, r`bitsLeft
    ensures r.Valid() && (chroma, bitDepth, width, height) == ParseBody(old(r.Rest()), high, prior)
  {
    hide ReadUe;
    hide ParseHigh;
    hide ParsePoc;
    hide ParseFrame;
    chroma, bitDepth := 1, prior;
    if high { chroma, bitDepth := ReadHigh(r); }
    var _ := r.ReadUeBits();
    ReadPicOrder(r);
    width, height := ReadFrame(r, chroma);
  }

  /** Parses a payload of at least ten bytes as `ParseSps` does its bits, and so gives back what any
      in-range parameter set was written from; a shorter payload leaves the record alone. */
  method SniffSps(data: seq<Byte>, prior: Info) returns (info: Info)
    ensures |data| < 10 ==> info == prior
    ensures |data| >= 10 ==> info == ParseSps(Message(data), prior)
    ensures forall s: Syntax, tail: seq<bool> | |data| >= 10 && InRange(s) && s.profile != 135 && Message(data) == PutSps(s, tail) ::
      GivenBack(s, info)
  {
    if |data| < 10 { return prior; }
    info := Sniff(data, prior);
    hide GivenBack;
    hide InRange;
    forall s: Syntax, tail: seq<bool> | InRange(s) && s.profile != 135 && Message(data) == PutSps(s, tail)
      ensures GivenBack(s, info)
    {
      SpsRoundTrip(s, tail, prior);
    }
  }

  method Sniff(data: seq<Byte>, prior: Info) returns (info: Info)
    ensures info == ParseSps(Message(data), prior)
  {
    hide Read;
    hide CachedRead;
    hide Served;
    hide ReadUe;
    hide ParseBody;
    hide IsHigh;
    var r := new Reader(data);
    var _ := r.ReadBits(8);
    var profile := r.ReadBits(8);
    var _ := r.ReadBits(8);
    var level := r.ReadBits(8);
    var _ := r.ReadUeBits();
    var chroma, depth, width, height := ReadBody(r, IsHigh(U8(profile)), prior.bitDepth);
    info := Info(U8(profile), U8(level), chroma, depth, width, height);
  }
}
