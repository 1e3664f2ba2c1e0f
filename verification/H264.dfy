/**
H.264 byte streams: the browser's Annex B splitter (flux-web/ui/lib/h264.ts) and the
relay's keyframe test (flux-web/frame.go), on values.  Printing follows section B.1 of
ITU-T H.264 and emulation prevention section 7.4.1.
*/
module H264 {
  import opened Basics

  // ----- Start codes

  /** The length of the start code at the front of `s`, or 0. */
  function StartCode(s: seq<Byte>): (n: nat)
    ensures n <= |s| && (n == 0 || n == 3 || n == 4)
  {
    if |s| < 3 || s[0] != 0 || s[1] != 0 then 0
    else if s[2] == 1 then 3
    else if |s| >= 4 && s[2] == 0 && s[3] == 1 then 4
    else 0
  }

  /** `findStartCode`: the first position in `s` with a start code. */
  function Find(s: seq<Byte>): (r: Option<nat>)
    ensures r.Some? ==> r.value + 3 <= |s| && StartCode(s[r.value..]) > 0
  {
    if |s| < 3 then None
    else if StartCode(s) > 0 then (assert s[0..] == s; Some(0))
    else
      var r := Find(s[1..]);
      if r.None? then None else (assert s[1..][r.value..] == s[r.value + 1..]; Some(r.value + 1))
  }

  /** It is the first one, and none is missed. */
  lemma {:induction false} FindIsFirst(s: seq<Byte>, i: nat)
    requires i < |s| && StartCode(s[i..]) > 0
    ensures Find(s).Some? && Find(s).value <= i
    decreases i
  {
    if i == 0 {
      assert s[0..] == s;
    } else if StartCode(s) == 0 {
      assert s[1..][i - 1..] == s[i..];
      FindIsFirst(s[1..], i - 1);
    }
  }

  /** Trailing zeros do not belong to a NAL unit. */
  function Trim(s: seq<Byte>): seq<Byte> {
    if s != [] && s[|s| - 1] == 0 then Trim(s[..|s| - 1]) else s
  }

  lemma {:induction false} TrimIsPrefix(s: seq<Byte>)
    ensures Trim(s) <= s && forall i :: |Trim(s)| <= i < |s| ==> s[i] == 0
  {
    if s == [] || s[|s| - 1] != 0 {
    } else {
      TrimIsPrefix(s[..|s| - 1]);
    }
  }

  /** What follows the start code at position `n`. */
  function After(s: seq<Byte>, n: nat): seq<Byte>
    requires n <= |s|
  {
    s[n + StartCode(s[n..])..]
  }

  /** The NAL units of what follows a start code. */
  function Parse(s: seq<Byte>): seq<seq<Byte>>
    decreases |s|
  {
    var next := Find(s);
    var nal := Trim(if next.Some? then s[..next.value] else s);
    var here := if nal == [] then [] else [nal];
    if next.None? then here
    else here + Parse(After(s, next.value))
  }

  /** `annexBNalUnits`: without any start code the whole input counts as one unit. */
  function NalUnits(data: seq<Byte>): seq<seq<Byte>> {
    var start := Find(data);
    if start.None? then (if data == [] then [] else [data])
    else Parse(After(data, start.value))
  }

  function NalType(nal: seq<Byte>): nat
    requires nal != []
  {
    nal[0] % 32
  }

  predicate HasFive(nals: seq<seq<Byte>>) {
    exists i :: 0 <= i < |nals| && nals[i] != [] && NalType(nals[i]) == 5
  }

  /** `isH264Keyframe` */
  predicate IsKeyframe(data: seq<Byte>) { HasFive(NalUnits(data)) }

  // ----- Printing

  /** A NAL unit behind `zeros` extra zero bytes and the three-byte prefix. */
  datatype Unit = Unit(zeros: nat, nal: seq<Byte>)

  function Zeros(n: nat): (s: seq<Byte>)
    ensures |s| == n && forall i :: 0 <= i < n ==> s[i] == 0
  {
    seq(n, _ => 0)
  }

  function Print(us: seq<Unit>, trailing: nat): seq<Byte> {
    if us == [] then Zeros(trailing)
    else Zeros(us[0].zeros) + [0, 0, 1] + us[0].nal + Print(us[1..], trailing)
  }

  /** A NAL unit as the standard allows it: not empty, no start code inside, no zero at the end. */
  predicate Printable(nal: seq<Byte>) {
    && nal != [] && nal[|nal| - 1] != 0
    && forall i :: 0 <= i <= |nal| - 3 ==> !(nal[i] == 0 && nal[i + 1] == 0 && nal[i + 2] == 1)
  }

  function Nals(us: seq<Unit>): (r: seq<seq<Byte>>)
    ensures |r| == |us|
  {
    seq(|us|, i requires 0 <= i < |us| => us[i].nal)
  }

  ghost predicate AllPrintable(us: seq<Unit>) {
    forall i :: 0 <= i < |us| ==> Printable(us[i].nal)
  }

  lemma FindIs(s: seq<Byte>, n: nat)
    requires n < |s| && StartCode(s[n..]) > 0 && forall i :: 0 <= i < n ==> StartCode(s[i..]) == 0
    ensures Find(s) == Some(n)
  {
    FindIsFirst(s, n);
  }

  lemma NoStartInside(nal: seq<Byte>, rest: seq<Byte>, i: nat)
    requires (nal == [] || Printable(nal)) && i < |nal|
    ensures StartCode((nal + rest)[i..]) == 0
  {
    var s := nal + rest;
    assert forall j :: 0 <= j < |nal| ==> s[j] == nal[j];
    var t := s[i..];
    if |t| >= 3 && t[0] == 0 && t[1] == 0 {
      assert s[i] == 0 && s[i + 1] == 0;
      assert i + 1 < |nal| - 1;
      assert t[2] == nal[i + 2];
      if t[2] == 0 && |t| >= 4 {
        assert i + 2 < |nal| - 1;
        assert t[3] == nal[i + 3];
      }
    }
  }

  lemma StartCodeInZeros(z: nat, rest: seq<Byte>, i: nat)
    requires i <= z
    ensures var s := Zeros(z) + [0, 0, 1] + rest;
            StartCode(s[i..]) == if i == z then 3 else if i + 1 == z then 4 else 0
  {
    var s := Zeros(z) + [0, 0, 1] + rest;
    assert s[z] == 0 && s[z + 1] == 0 && s[z + 2] == 1;
    assert forall j :: 0 <= j < z ==> s[j] == 0;
  }

  /** The first start code after a NAL unit is where printing put it, four bytes long if there is a zero to spare. */
  lemma FindNext(nal: seq<Byte>, z: nat, rest: seq<Byte>)
    requires nal == [] || Printable(nal)
    ensures var s := nal + (Zeros(z) + [0, 0, 1] + rest);
            var at := |nal| + if z == 0 then 0 else z - 1;
            Find(s) == Some(at) && StartCode(s[at..]) == (if z == 0 then 3 else 4)
  {
    var tail := Zeros(z) + [0, 0, 1] + rest;
    var s := nal + tail;
    var at := |nal| + if z == 0 then 0 else z - 1;
    forall i | 0 <= i <= at ensures StartCode(s[i..]) == if i < at then 0 else if z == 0 then 3 else 4 {
      if i < |nal| {
        NoStartInside(nal, tail, i);
      } else {
        assert s[i..] == tail[i - |nal|..];
        StartCodeInZeros(z, rest, i - |nal|);
      }
    }
    FindIs(s, at);
  }

  lemma {:induction false} TrimZeros(nal: seq<Byte>, n: nat)
    requires nal != [] && nal[|nal| - 1] != 0
    ensures Trim(nal + Zeros(n)) == nal
  {
    if n > 0 {
      TrimZeros(nal, n - 1);
      assert (nal + Zeros(n))[..|nal| + n - 1] == nal + Zeros(n - 1);
    } else {
      assert nal + Zeros(0) == nal;
    }
  }

  lemma FindNone(nal: seq<Byte>, n: nat)
    requires Printable(nal)
    ensures Find(nal + Zeros(n)) == None
  {
    var s := nal + Zeros(n);
    var found := Find(s);
    forall i | 0 <= i < |s| ensures StartCode(s[i..]) == 0 {
      if i < |nal| {
        NoStartInside(nal, Zeros(n), i);
      } else {
        assert forall j :: i <= j < |s| ==> s[j] == 0;
      }
    }
  }

  /** Where the pieces around a printed start code end. */
  lemma CutAt(nal: seq<Byte>, z: nat, rest: seq<Byte>)
    ensures var s := nal + (Zeros(z) + [0, 0, 1] + rest);
            var at := |nal| + if z == 0 then 0 else z - 1;
            s[..at] == nal + Zeros(at - |nal|) && s[at + (if z == 0 then 3 else 4)..] == rest
  {
    var s := nal + (Zeros(z) + [0, 0, 1] + rest);
    assert s == (nal + Zeros(z) + [0, 0, 1]) + rest;
  }

  lemma ParseUnfold(s: seq<Byte>, at: nat, nal: seq<Byte>, rest: seq<Byte>)
    requires Find(s) == Some(at) && Trim(s[..at]) == nal && nal != [] && After(s, at) == rest
    ensures Parse(s) == [nal] + Parse(rest)
  {
  }

  lemma ParseStep(nal: seq<Byte>, z: nat, rest: seq<Byte>)
    requires Printable(nal)
    ensures Parse(nal + (Zeros(z) + [0, 0, 1] + rest)) == [nal] + Parse(rest)
  {
    var at := |nal| + if z == 0 then 0 else z - 1;
    FindNext(nal, z, rest);
    CutAt(nal, z, rest);
    TrimZeros(nal, at - |nal|);
    ParseUnfold(nal + (Zeros(z) + [0, 0, 1] + rest), at, nal, rest);
  }

  lemma ParseEnd(nal: seq<Byte>, trailing: nat)
    requires Printable(nal)
    ensures Parse(nal + Zeros(trailing)) == [nal]
  {
    FindNone(nal, trailing);
    TrimZeros(nal, trailing);
  }

  lemma PrintFirst(us: seq<Unit>, trailing: nat)
    requires us != []
    ensures Print(us, trailing) == Zeros(us[0].zeros) + [0, 0, 1] + (us[0].nal + Print(us[1..], trailing))
    ensures Nals(us) == [us[0].nal] + Nals(us[1..])
  {
  }

  /** After a start code the splitter reads back exactly the units that were printed. */
  lemma {:induction false} ParsePrinted(nal: seq<Byte>, us: seq<Unit>, trailing: nat)
    requires Printable(nal) && AllPrintable(us)
    ensures Parse(nal + Print(us, trailing)) == [nal] + Nals(us)
    decreases |us|
  {
    if us == [] {
      ParseEnd(nal, trailing);
    } else {
      PrintFirst(us, trailing);
      ParseStep(nal, us[0].zeros, us[0].nal + Print(us[1..], trailing));
      ParsePrinted(us[0].nal, us[1..], trailing);
    }
  }

  lemma SplitFirst(z: nat, rest: seq<Byte>)
    ensures NalUnits(Zeros(z) + [0, 0, 1] + rest) == Parse(rest)
  {
    FindNext([], z, rest);
    CutAt([], z, rest);
    assert [] + (Zeros(z) + [0, 0, 1] + rest) == Zeros(z) + [0, 0, 1] + rest;
  }

  /** Splitting inverts printing, whatever start-code lengths, extra zeros and trailing zeros were used. */
  lemma SplitInvertsPrint(us: seq<Unit>, trailing: nat)
    requires us != [] && AllPrintable(us)
    ensures NalUnits(Print(us, trailing)) == Nals(us)
  {
    PrintFirst(us, trailing);
    SplitFirst(us[0].zeros, us[0].nal + Print(us[1..], trailing));
    ParsePrinted(us[0].nal, us[1..], trailing);
  }

  // ----- Emulation prevention

  /** Section 7.4.1: a 3 goes in front of any byte up to 3 that would follow two zeros. */
  function Protect(rbsp: seq<Byte>, zeros: nat): seq<Byte>
    decreases |rbsp|
  {
    if rbsp == [] then []
    else
      var b := rbsp[0];
      var after := ZerosAfter(zeros, b);
      if zeros >= 2 && b <= 3 then [3, b] + Protect(rbsp[1..], after) else [b] + Protect(rbsp[1..], after)
  }

  /** How many zero bytes have just been written, after one more byte of the payload. */
  function ZerosAfter(zeros: nat, b: Byte): nat {
    if b != 0 then 0 else if zeros >= 2 then 1 else zeros + 1
  }

  /** And a final 3 goes behind a payload that ends in a zero byte. */
  function Encapsulate(rbsp: seq<Byte>): seq<Byte> {
    Protect(rbsp, 0) + if rbsp != [] && rbsp[|rbsp| - 1] == 0 then [3] else []
  }

  /** `removeEmulationPrevention`, with `zeros` zero bytes just read. */
  function Unprotect(s: seq<Byte>, zeros: nat): seq<Byte>
    decreases |s|
  {
    if s == [] then []
    else if zeros >= 2 && s[0] == 3 then Unprotect(s[1..], 0)
    else [s[0]] + Unprotect(s[1..], if s[0] == 0 then zeros + 1 else 0)
  }

  /** The count of zero bytes just written, after a whole payload. */
  function EndZeros(rbsp: seq<Byte>, zeros: nat): nat
    decreases |rbsp|
  {
    if rbsp == [] then zeros else EndZeros(rbsp[1..], ZerosAfter(zeros, rbsp[0]))
  }

  /** Removing what section 7.4.1 inserts gives the payload back, whatever follows it. */
  lemma {:induction false} UnprotectInvertsProtect(rbsp: seq<Byte>, zeros: nat, tail: seq<Byte>)
    requires zeros <= 2
    ensures Unprotect(Protect(rbsp, zeros) + tail, zeros) == rbsp + Unprotect(tail, EndZeros(rbsp, zeros))
    decreases |rbsp|
  {
    if rbsp == [] {
      assert Protect(rbsp, zeros) + tail == tail;
    } else {
      var b := rbsp[0];
      var after := ZerosAfter(zeros, b);
      var rest, back := Protect(rbsp[1..], after) + tail, Unprotect(tail, EndZeros(rbsp[1..], after));
      calc {
        Unprotect(Protect(rbsp, zeros) + tail, zeros);
        { ProtectFirst(rbsp, zeros, tail, rest); UnprotectByte(b, rest, zeros); }
        [b] + Unprotect(rest, after);
        { UnprotectInvertsProtect(rbsp[1..], after, tail); }
        [b] + (rbsp[1..] + back);
        rbsp + back;
      }
    }
  }

  lemma ProtectFirst(rbsp: seq<Byte>, zeros: nat, tail: seq<Byte>, rest: seq<Byte>)
    requires rbsp != [] && rest == Protect(rbsp[1..], ZerosAfter(zeros, rbsp[0])) + tail
    ensures Protect(rbsp, zeros) + tail ==
            if zeros >= 2 && rbsp[0] <= 3 then [3] + ([rbsp[0]] + rest) else [rbsp[0]] + rest
  {
  }

  lemma UnprotectByte(b: Byte, rest: seq<Byte>, zeros: nat)
    requires zeros <= 2
    ensures Unprotect(if zeros >= 2 && b <= 3 then [3] + ([b] + rest) else [b] + rest, zeros) ==
            [b] + Unprotect(rest, ZerosAfter(zeros, b))
  {
    assert ([b] + rest)[1..] == rest;
    if zeros >= 2 && b <= 3 {
      assert ([3] + ([b] + rest))[1..] == [b] + rest;
    }
  }

  function TrailingZeros(s: seq<Byte>): nat {
    if s == [] || s[|s| - 1] != 0 then 0 else 1 + TrailingZeros(s[..|s| - 1])
  }

  lemma {:induction false} EndZerosMore(s: seq<Byte>, b: Byte, zeros: nat)
    ensures EndZeros(s + [b], zeros) == ZerosAfter(EndZeros(s, zeros), b)
    decreases |s|
  {
    if s == [] {
      assert s + [b] == [b];
    } else {
      EndZerosMore(s[1..], b, ZerosAfter(zeros, s[0]));
      assert (s + [b])[1..] == s[1..] + [b];
    }
  }

  /** Zeros at the end are written in pairs, so their parity decides how many the last pair has. */
  lemma {:induction false} EndZerosParity(rbsp: seq<Byte>)
    ensures var t := TrailingZeros(rbsp);
            EndZeros(rbsp, 0) == if t == 0 then 0 else if t % 2 == 1 then 1 else 2
  {
    if rbsp == [] {
    } else {
      var last := |rbsp| - 1;
      EndZerosParity(rbsp[..last]);
      EndZerosMore(rbsp[..last], rbsp[last], 0);
      assert rbsp == rbsp[..last] + [rbsp[last]];
    }
  }

  /**
  The browser gives an encapsulated payload back exactly when it ends in an even number of zero
  bytes.  The standard's payloads do: zeros behind the stop bit come as two-byte words.
  */
  lemma EncapsulationIsUndone(rbsp: seq<Byte>)
    ensures Unprotect(Encapsulate(rbsp), 0) == rbsp <==> TrailingZeros(rbsp) % 2 == 0
  {
    var tail := if rbsp != [] && rbsp[|rbsp| - 1] == 0 then [3] else [];
    UnprotectInvertsProtect(rbsp, 0, tail);
    EndZerosParity(rbsp);
    assert rbsp + [] == rbsp && |rbsp + [3]| == |rbsp| + 1;
    assert [3][1..] == [];
  }

  /** It is not so for an odd number: the final byte of the encapsulation stays. */
  lemma OddZeroStays()
    ensures Unprotect(Encapsulate([1, 0]), 0) == [1, 0, 3]
  {
    EndZerosParity([1, 0]);
    UnprotectInvertsProtect([1, 0], 0, [3]);
    assert [1, 0][..1] == [1];
    assert [3][1..] == [];
  }

  /** No byte up to 2 directly behind two zeros. */
  ghost predicate Safe(s: seq<Byte>) {
    forall i :: 0 <= i <= |s| - 3 ==> !(s[i] == 0 && s[i + 1] == 0 && s[i + 2] <= 2)
  }

  /** `s` is safe to append behind this many zeros. */
  ghost predicate SafeBehind(s: seq<Byte>, zeros: nat) {
    && Safe(s)
    && (zeros >= 2 && |s| >= 1 ==> s[0] > 2)
    && (zeros >= 1 && |s| >= 2 && s[0] == 0 ==> s[1] > 2)
  }

  lemma SafeCons(b: Byte, s: seq<Byte>, zeros: nat)
    requires SafeBehind(s, if b == 0 then zeros + 1 else 0) && (zeros >= 2 ==> b > 2)
    ensures SafeBehind([b] + s, zeros)
  {
    var t := [b] + s;
    forall i | 0 <= i <= |t| - 3 ensures !(t[i] == 0 && t[i + 1] == 0 && t[i + 2] <= 2) {
      if i > 0 { assert t[i] == s[i - 1] && t[i + 1] == s[i] && t[i + 2] == s[i + 1]; }
    }
  }

  lemma {:induction false} ProtectIsSafe(rbsp: seq<Byte>, zeros: nat)
    ensures SafeBehind(Protect(rbsp, zeros), zeros)
    decreases |rbsp|
  {
    if rbsp == [] {
    } else {
      var b, after := rbsp[0], ZerosAfter(zeros, rbsp[0]);
      var rest := Protect(rbsp[1..], after);
      ProtectIsSafe(rbsp[1..], after);
      if zeros >= 2 && b <= 3 {
        SafeCons(b, rest, 0);
        SafeCons(3, [b] + rest, zeros);
        assert [3] + ([b] + rest) == [3, b] + rest;
      } else {
        SafeCons(b, rest, zeros);
      }
    }
  }

  /** A NAL unit: a header byte and the encapsulated payload. */
  function Nal(header: Byte, rbsp: seq<Byte>): seq<Byte> { [header] + Encapsulate(rbsp) }

  /** Any header that is not zero and any payload make a unit that can be printed. */
  lemma NalIsPrintable(header: Byte, rbsp: seq<Byte>)
    requires header != 0
    ensures Printable(Nal(header, rbsp))
  {
    EncapsulateIsSafe(rbsp);
    HeaderIsPrintable(header, Encapsulate(rbsp));
  }

  /** An encapsulated payload has no start code in it and does not end in zero. */
  lemma EncapsulateIsSafe(rbsp: seq<Byte>)
    ensures var e := Encapsulate(rbsp); Safe(e) && (e == [] || e[|e| - 1] != 0)
  {
    ProtectEnds(rbsp, 0);
    var p := Protect(rbsp, 0);
    assert Safe(p) by {
      ProtectIsSafe(rbsp, 0);
    }
    SafeWithThree(p);
    assert p + [] == p;
  }

  lemma SafeWithThree(p: seq<Byte>)
    requires Safe(p)
    ensures Safe(p + [3])
  {
    var t := p + [3];
    forall i | 0 <= i <= |t| - 3
      ensures !(t[i] == 0 && t[i + 1] == 0 && t[i + 2] <= 2)
    {
      if i < |p| - 2 {
        assert t[i] == p[i] && t[i + 1] == p[i + 1] && t[i + 2] == p[i + 2];
      }
    }
  }

  lemma HeaderIsPrintable(header: Byte, e: seq<Byte>)
    requires header != 0 && Safe(e) && (e == [] || e[|e| - 1] != 0)
    ensures Printable([header] + e)
  {
    var nal := [header] + e;
    forall i | 0 <= i <= |nal| - 3
      ensures !(nal[i] == 0 && nal[i + 1] == 0 && nal[i + 2] == 1)
    {
      if i > 0 {
        assert nal[i] == e[i - 1] && nal[i + 1] == e[i] && nal[i + 2] == e[i + 1];
      }
    }
  }

  lemma {:induction false} ProtectEnds(rbsp: seq<Byte>, zeros: nat)
    ensures rbsp != [] ==>
              Protect(rbsp, zeros) != [] && Protect(rbsp, zeros)[|Protect(rbsp, zeros)| - 1] == rbsp[|rbsp| - 1]
    ensures rbsp == [] ==> Protect(rbsp, zeros) == []
    decreases |rbsp|
  {
    if rbsp == [] {
    } else {
      ProtectEnds(rbsp[1..], ZerosAfter(zeros, rbsp[0]));
    }
  }

  /** What an encoder sends: a payload under a header, behind a start code. */
  datatype Payload = Payload(zeros: nat, header: Byte, rbsp: seq<Byte>)

  function Units(ps: seq<Payload>): (us: seq<Unit>)
    ensures |us| == |ps| && forall i :: 0 <= i < |ps| ==> us[i] == Unit(ps[i].zeros, Nal(ps[i].header, ps[i].rbsp))
  {
    seq(|ps|, i requires 0 <= i < |ps| => Unit(ps[i].zeros, Nal(ps[i].header, ps[i].rbsp)))
  }

  /**
  The way onto the wire and back, for any payloads under non-zero headers: encapsulate, print,
  split, remove emulation prevention.  Every unit arrives as it was sent, and its payload comes
  back exactly when it ends in an even number of zero bytes.
  */
  lemma PayloadSurvives(ps: seq<Payload>, trailing: nat, k: nat)
    requires k < |ps| && forall i :: 0 <= i < |ps| ==> ps[i].header != 0
    ensures var nals := NalUnits(Print(Units(ps), trailing));
            && |nals| == |ps| && nals[k] == Nal(ps[k].header, ps[k].rbsp) && nals[k][0] == ps[k].header
            && (Unprotect(nals[k][1..], 0) == ps[k].rbsp <==> TrailingZeros(ps[k].rbsp) % 2 == 0)
  {
    var us := Units(ps);
    forall i | 0 <= i < |us|
      ensures Printable(us[i].nal)
    {
      NalIsPrintable(ps[i].header, ps[i].rbsp);
    }
    SplitInvertsPrint(us, trailing);
    EncapsulationIsUndone(ps[k].rbsp);
    assert Nal(ps[k].header, ps[k].rbsp)[1..] == Encapsulate(ps[k].rbsp);
  }

  // ----- Two keyframe tests

  /** `isIDRFrame`: it looks at the byte after each start code, and stops four bytes before the end. */
  predicate IsIdr(s: seq<Byte>)
    decreases |s|
  {
    if |s| <= 4 then false
    else if StartCode(s) == 4 then s[4] % 32 == 5 || IsIdr(s[4..])
    else if StartCode(s) == 3 then s[3] % 32 == 5 || IsIdr(s[3..])
    else IsIdr(s[1..])
  }

  /** Some start code in `s` is followed by a byte of type 5. */
  predicate Five(s: seq<Byte>)
    decreases |s|
  {
    var next := Find(s);
    next.Some? &&
      var p := After(s, next.value);
      (p != [] && p[0] % 32 == 5) || Five(p)
  }

  /** The input ends in a three-byte start code and a single byte of type 5. */
  predicate LoneTail(s: seq<Byte>) {
    |s| >= 4 && s[|s| - 4] == 0 && s[|s| - 3] == 0 && s[|s| - 2] == 1 && s[|s| - 1] % 32 == 5
  }

  /** The input has no start code at all and begins with a byte of type 5. */
  predicate Bare(s: seq<Byte>) {
    Find(s).None? && s != [] && s[0] % 32 == 5
  }

  lemma HasFiveCons(nal: seq<Byte>, nals: seq<seq<Byte>>)
    requires nal != []
    ensures HasFive([nal] + nals) <==> NalType(nal) == 5 || HasFive(nals)
  {
    var both := [nal] + nals;
    if NalType(nal) == 5 { assert both[0] == nal; }
    if HasFive(nals) {
      var i :| 0 <= i < |nals| && nals[i] != [] && NalType(nals[i]) == 5;
      assert both[i + 1] == nals[i];
    }
    if HasFive(both) {
      var i :| 0 <= i < |both| && both[i] != [] && NalType(both[i]) == 5;
      if i > 0 { assert nals[i - 1] == both[i]; }
    }
  }

  /** The first unit is empty exactly when it has no byte that could be of type 5. */
  lemma FirstUnit(s: seq<Byte>)
    ensures var next := Find(s);
            var nal := Trim(if next.Some? then s[..next.value] else s);
            && (nal != [] ==> s != [] && nal[0] == s[0])
            && (s != [] && s[0] != 0 ==> nal != [])
  {
    var next := Find(s);
    TrimIsPrefix(if next.Some? then s[..next.value] else s);
  }

  lemma {:induction false} ParseHasFive(s: seq<Byte>)
    ensures HasFive(Parse(s)) <==> (s != [] && s[0] % 32 == 5) || Five(s)
    decreases |s|
  {
    var next := Find(s);
    var nal := Trim(if next.Some? then s[..next.value] else s);
    FirstUnit(s);
    ParseParts(s);
    FiveParts(s);
    if next.Some? {
      ParseHasFive(After(s, next.value));
    }
    if nal != [] {
      HasFiveCons(nal, if next.Some? then Parse(After(s, next.value)) else []);
    }
  }

  lemma ParseParts(s: seq<Byte>)
    ensures var next := Find(s);
            var nal := Trim(if next.Some? then s[..next.value] else s);
            var rest := if next.Some? then Parse(After(s, next.value)) else [];
            Parse(s) == if nal == [] then rest else [nal] + rest
  {
  }

  lemma FiveParts(s: seq<Byte>)
    ensures var next := Find(s);
            Five(s) <==>
              next.Some? && var p := After(s, next.value); (p != [] && p[0] % 32 == 5) || Five(p)
  {
  }

  lemma KeyframeIsFive(data: seq<Byte>)
    ensures IsKeyframe(data) <==> Bare(data) || Five(data)
  {
    var start := Find(data);
    if start.Some? {
      ParseHasFive(After(data, start.value));
    } else if data != [] {
      HasFiveCons(data, []);
      assert [data] + [] == [data];
    }
  }

  lemma AfterSkips(s: seq<Byte>, n: nat)
    requires n < |s|
    ensures After(s[1..], n) == After(s, n + 1)
  {
    assert s[1..][n..] == s[n + 1..];
  }

  lemma FiveSkips(s: seq<Byte>)
    requires s != [] && StartCode(s) == 0
    ensures Five(s) == Five(s[1..])
  {
    var b := Find(s[1..]);
    if b.Some? { AfterSkips(s, b.value); }
    assert Find(s) == if b.Some? then Some(b.value + 1) else None;
  }

  lemma FiveHere(s: seq<Byte>)
    requires StartCode(s) > 0
    ensures var p := s[StartCode(s)..]; Five(s) <==> (p != [] && p[0] % 32 == 5) || Five(p)
  {
    assert s[0..] == s;
    FindIs(s, 0);
  }

  lemma {:induction false} FiveIsIdr(s: seq<Byte>)
    ensures Five(s) <==> IsIdr(s) || LoneTail(s)
    decreases |s|
  {
    var n := StartCode(s);
    if n > 0 {
      FiveHere(s);
      FiveIsIdr(s[n..]);
    } else if s == [] {
    } else {
      FiveSkips(s);
      FiveIsIdr(s[1..]);
    }
  }

  /**
  The browser and the relay agree on what a keyframe is except on two kinds of input: one
  without any start code, and one that ends in a three-byte start code and a single byte.
  On those only the browser may say yes.
  */
  lemma KeyframeTestsAgree(data: seq<Byte>)
    ensures IsKeyframe(data) <==> IsIdr(data) || LoneTail(data) || Bare(data)
  {
    KeyframeIsFive(data);
    FiveIsIdr(data);
  }

  /** They do differ: the two inputs below are keyframes to the browser only. */
  lemma KeyframeTestsDiffer()
    ensures IsKeyframe([0x65]) && !IsIdr([0x65])
    ensures IsKeyframe([0, 0, 1, 0x65]) && !IsIdr([0, 0, 1, 0x65])
  {
    KeyframeTestsAgree([0x65]);
    KeyframeTestsAgree([0, 0, 1, 0x65]);
    assert LoneTail([0, 0, 1, 0x65]);
    assert Find([0x65]).None?;
  }

  lemma TailOf(a: seq<Byte>, b: seq<Byte>)
    requires |b| >= 4
    ensures LoneTail(a + b) == LoneTail(b)
  {
  }

  lemma TailOfLast(head: seq<Byte>, nal: seq<Byte>)
    requires Printable(nal) && |nal| >= 2 && |head| >= 3 && head[|head| - 1] == 1
    ensures !LoneTail(head + nal)
  {
    var s := head + nal;
    assert s[|head| - 1] == 1;
    if |nal| >= 4 { TailOf(head, nal); }
  }

  lemma {:induction false} PrintedTail(us: seq<Unit>, trailing: nat)
    requires us != [] && AllPrintable(us) && forall i :: 0 <= i < |us| ==> |us[i].nal| >= 2
    ensures |Print(us, trailing)| >= 5 && !LoneTail(Print(us, trailing))
    decreases |us|
  {
    var nal, rest := us[0].nal, Print(us[1..], trailing);
    var head := Zeros(us[0].zeros) + [0, 0, 1];
    assert Print(us, trailing) == (head + nal) + rest;
    if |us| > 1 {
      PrintedTail(us[1..], trailing);
      TailOf(head + nal, rest);
    } else if trailing > 0 {
      assert ((head + nal) + rest)[|head + nal| + trailing - 1] == 0;
    } else {
      assert (head + nal) + rest == head + nal;
      TailOfLast(head, nal);
    }
  }

  /** On properly printed streams of units of at least two bytes both tests say whether some unit is an IDR slice. */
  lemma PrintedKeyframes(us: seq<Unit>, trailing: nat)
    requires us != [] && AllPrintable(us) && forall i :: 0 <= i < |us| ==> |us[i].nal| >= 2
    ensures IsKeyframe(Print(us, trailing)) <==> IsIdr(Print(us, trailing))
    ensures IsIdr(Print(us, trailing)) <==> exists i :: 0 <= i < |us| && us[i].nal[0] % 32 == 5
  {
    var data := Print(us, trailing);
    KeyframeTestsAgree(data);
    PrintedTail(us, trailing);
    SplitInvertsPrint(us, trailing);
    PrintFirst(us, trailing);
    FindNext([], us[0].zeros, us[0].nal + Print(us[1..], trailing));
    assert [] + data == data;
    if IsKeyframe(data) {
      var i :| 0 <= i < |NalUnits(data)| && NalUnits(data)[i] != [] && NalType(NalUnits(data)[i]) == 5;
      assert us[i].nal[0] % 32 == 5;
    }
    if i :| 0 <= i < |us| && us[i].nal[0] % 32 == 5 {
      assert NalUnits(data)[i] != [] && NalType(NalUnits(data)[i]) == 5;
    }
  }
}
