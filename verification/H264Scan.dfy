/** The index loops of flux-web/ui/lib/h264.ts and flux-web/frame.go, against the functions of H264. */
module H264Scan {
  import opened Basics
  import opened H264

  datatype NalUnit = NalUnit(kind: nat, data: seq<Byte>)

  function Typed(nals: seq<seq<Byte>>): seq<NalUnit> {
    if nals == [] then []
    else [NalUnit(if nals[0] == [] then 0 else NalType(nals[0]), nals[0])] + Typed(nals[1..])
  }

  /** A search result moved from a suffix to the whole. */
  function Shift(r: Option<nat>, offset: nat): Option<nat> {
    if r.None? then None else Some(r.value + offset)
  }

  /** The code at position `i` in the code's own terms: 0 if there is none. */
  function CodeAt(data: seq<Byte>, i: nat): (n: nat)
    requires i + 3 <= |data|
    ensures i + n <= |data|
  {
    if data[i] != 0 || data[i + 1] != 0 then 0
    else if data[i + 2] == 1 then 3
    else if i + 4 <= |data| && data[i + 2] == 0 && data[i + 3] == 1 then 4
    else 0
  }

  lemma CodeAtIs(data: seq<Byte>, i: nat)
    requires i + 3 <= |data|
    ensures CodeAt(data, i) == StartCode(data[i..])
  {
  }

  lemma FindHit(data: seq<Byte>, i: nat, goal: Option<nat>)
    requires i + 3 <= |data| && goal == Shift(Find(data[i..]), i) && CodeAt(data, i) > 0
    ensures goal == Some(i)
  {
    CodeAtIs(data, i);
  }

  lemma FindMiss(data: seq<Byte>, i: nat, goal: Option<nat>)
    requires i + 3 <= |data| && goal == Shift(Find(data[i..]), i) && CodeAt(data, i) == 0
    ensures goal == Shift(Find(data[i + 1..]), i + 1)
  {
    CodeAtIs(data, i);
    assert data[i..][1..] == data[i + 1..];
  }

  method FindStartCode(data: seq<Byte>, from: nat) returns (index: Option<nat>, length: nat)
    requires from <= |data|
    ensures index == Shift(Find(data[from..]), from)
    ensures index.Some? ==> from <= index.value && index.value + 3 <= |data| && length == CodeAt(data, index.value)
    ensures index.Some? ==> 0 < length && index.value + length <= |data|
  {
    ghost var goal := Shift(Find(data[from..]), from);
    var i := from;
    while i + 3 <= |data|
      invariant from <= i <= |data|
      invariant goal == Shift(Find(data[i..]), i)
      decreases |data| - i
    {
      if data[i] == 0 && data[i + 1] == 0 {
        if data[i + 2] == 1 {
          FindHit(data, i, goal);
          return Some(i), 3;
        }
        if i + 4 <= |data| && data[i + 2] == 0 && data[i + 3] == 1 {
          FindHit(data, i, goal);
          return Some(i), 4;
        }
      }
      FindMiss(data, i, goal);
      i := i + 1;
    }
    return None, 0;
  }

  lemma TrimLast(data: seq<Byte>, start: nat, end: nat)
    requires start < end <= |data| && data[end - 1] == 0
    ensures Trim(data[start..end]) == Trim(data[start..end - 1])
  {
    assert data[start..end][..end - start - 1] == data[start..end - 1];
  }

  lemma TrimDone(s: seq<Byte>)
    requires s == [] || s[|s| - 1] != 0
    ensures Trim(s) == s
  {
  }

  /** Strip trailing zeros from data[start..end]. */
  method TrimEnd(data: seq<Byte>, start: nat, end: nat) returns (e: nat)
    requires start <= end <= |data|
    ensures start <= e <= end && data[start..e] == Trim(data[start..end])
  {
    e := end;
    while e > start && data[e - 1] == 0
      invariant start <= e <= end && Trim(data[start..e]) == Trim(data[start..end])
      decreases e
    {
      TrimLast(data, start, e);
      e := e - 1;
    }
    TrimDone(data[start..e]);
  }

  lemma ParseLast(data: seq<Byte>, start: nat)
    requires start <= |data| && Find(data[start..]).None?
    ensures var nal := Trim(data[start..|data|]); Parse(data[start..]) == if nal == [] then [] else [nal]
  {
    assert data[start..|data|] == data[start..];
  }

  lemma ParseMiddle(data: seq<Byte>, start: nat, at: nat, length: nat)
    requires start <= at && at + 3 <= |data| && Find(data[start..]) == Some(at - start) && length == CodeAt(data, at)
    ensures var nal, rest := Trim(data[start..at]), Parse(data[at + length..]);
            Parse(data[start..]) == if nal == [] then rest else [nal] + rest
  {
    var s := data[start..];
    assert s[..at - start] == data[start..at];
    assert After(s, at - start) == data[at + length..] by {
      CodeAtIs(data, at);
      assert s[at - start..] == data[at..];
    }
    ParseCut(s, at - start, Trim(data[start..at]), data[at + length..]);
  }

  lemma ParseCut(s: seq<Byte>, at: nat, nal: seq<Byte>, rest: seq<Byte>)
    requires Find(s) == Some(at) && Trim(s[..at]) == nal && After(s, at) == rest
    ensures Parse(s) == if nal == [] then Parse(rest) else [nal] + Parse(rest)
  {
  }

  method AnnexBNalUnits(data: seq<Byte>) returns (units: seq<NalUnit>)
    ensures units == Typed(NalUnits(data))
  {
    var start, length := FindStartCode(data, 0);
    assert data[0..] == data;
    if start.None? {
      if |data| == 0 { return []; }
      return [NalUnit(data[0] % 32, data)];
    }
    CodeAtIs(data, start.value);
    units := CollectUnits(data, start.value + length);
  }

  lemma TypedCons(units: seq<NalUnit>, nal: seq<Byte>, rest: seq<seq<Byte>>)
    requires nal != []
    ensures units + Typed([nal] + rest) == (units + [NalUnit(NalType(nal), nal)]) + Typed(rest)
  {
    assert ([nal] + rest)[1..] == rest;
  }

  /** The splitting loop, from the payload of the first start code on. */
  method CollectUnits(data: seq<Byte>, payload: nat) returns (units: seq<NalUnit>)
    requires payload <= |data|
    ensures units == Typed(Parse(data[payload..]))
  {
    var payloadStart := Some(payload);
    units := [];
    ghost var rest := Parse(data[payload..]);
    ghost var goal := Typed(rest);
    while payloadStart.Some?
      invariant units + Typed(rest) == goal
      invariant payloadStart.Some? ==> payloadStart.value <= |data| && rest == Parse(data[payloadStart.value..])
      invariant payloadStart.None? ==> rest == []
      decreases if payloadStart.Some? then |data| - payloadStart.value else -1
    {
      var nal, next, left := ReadUnit(data, payloadStart.value, rest);
      if |nal| > 0 {
        TypedCons(units, nal, left);
        units := units + [NalUnit(nal[0] % 32, nal)];
      }
      payloadStart, rest := next, left;
    }
  }

  /** The unit up to the next start code, and where the payload after that one begins. */
  method ReadUnit(data: seq<Byte>, payloadStart: nat, ghost all: seq<seq<Byte>>)
    returns (nal: seq<Byte>, next: Option<nat>, ghost rest: seq<seq<Byte>>)
    requires payloadStart <= |data| && all == Parse(data[payloadStart..])
    ensures next.Some? ==> payloadStart < next.value <= |data| && rest == Parse(data[next.value..])
    ensures next.None? ==> rest == []
    ensures all == if nal == [] then rest else [nal] + rest
  {
    var start, length := FindStartCode(data, payloadStart);
    var payloadEnd := TrimEnd(data, payloadStart, if start.Some? then start.value else |data|);
    nal := data[payloadStart..payloadEnd];
    next := if start.Some? then Some(start.value + length) else None;
    rest := Remaining(data, payloadStart, start, length, nal, all);
  }

  /** What is left to split after one unit has been read. */
  lemma Remaining(data: seq<Byte>, payloadStart: nat, start: Option<nat>, length: nat, nal: seq<Byte>,
                  all: seq<seq<Byte>>)
    returns (left: seq<seq<Byte>>)
    requires payloadStart <= |data| && all == Parse(data[payloadStart..])
    requires start == Shift(Find(data[payloadStart..]), payloadStart)
    requires start.Some? ==> payloadStart <= start.value && start.value + 3 <= |data|
    requires start.Some? ==> length == CodeAt(data, start.value)
    requires nal == Trim(data[payloadStart..if start.Some? then start.value else |data|])
    ensures start.Some? ==> left == Parse(data[start.value + length..])
    ensures start.None? ==> left == []
    ensures all == if nal == [] then left else [nal] + left
  {
    if start.None? {
      ParseLast(data, payloadStart);
      left := [];
    } else {
      ParseMiddle(data, payloadStart, start.value, length);
      left := Parse(data[start.value + length..]);
    }
  }

  method RemoveEmulationPrevention(data: seq<Byte>) returns (rbsp: seq<Byte>)
    ensures rbsp == Unprotect(data, 0)
  {
    var result := new Byte[|data|];
    var length, zeros := 0, 0;
    ghost var goal, written: seq<Byte> := Unprotect(data, 0), [];
    assert data[0..] == data;
    for i := 0 to |data|
      invariant length <= i && result[..length] == written
      invariant written + Unprotect(data[i..], zeros) == goal
    {
      UnprotectNext(data, i, zeros, written);
      var byte := data[i];
      if zeros >= 2 && byte == 3 {
        zeros := 0;
        continue;
      }
      result[length] := byte;
      length := length + 1;
      written := written + [byte];
      zeros := if byte == 0 then zeros + 1 else 0;
    }
    rbsp := result[..length];
    assert rbsp + [] == rbsp;
  }

  lemma UnprotectNext(data: seq<Byte>, i: nat, zeros: nat, written: seq<Byte>)
    requires i < |data|
    ensures written + Unprotect(data[i..], zeros) ==
            if zeros >= 2 && data[i] == 3 then written + Unprotect(data[i + 1..], 0)
            else written + [data[i]] + Unprotect(data[i + 1..], if data[i] == 0 then zeros + 1 else 0)
  {
    assert data[i..][1..] == data[i + 1..];
  }

  /** `isIDRFrame` in the relay. */
  method IsIdrFrame(data: seq<Byte>) returns (idr: bool)
    ensures idr == IsIdr(data)
  {
    var i := 0;
    while i < |data| - 4
      invariant 0 <= i <= |data| && IsIdr(data[i..]) == IsIdr(data)
      decreases |data| - i
    {
      assert data[i..][4..] == data[i + 4..] && data[i..][3..] == data[i + 3..] && data[i..][1..] == data[i + 1..];
      if data[i] == 0 && data[i + 1] == 0 && data[i + 2] == 0 && data[i + 3] == 1 {
        if i + 4 < |data| && data[i + 4] % 32 == 5 { return true; }
        i := i + 4;
      } else if data[i] == 0 && data[i + 1] == 0 && data[i + 2] == 1 {
        if i + 3 < |data| && data[i + 3] % 32 == 5 { return true; }
        i := i + 3;
      } else {
        i := i + 1;
      }
    }
    return false;
  }
}
