/**
 The pattern compiler of System V's regexp.h (head/regexp.h): compile, reading its pattern
 through GETC from a byte string, and the meaning of the program it makes.
 */
module RegexpCompile {
  import opened Options
  import opened Bytes
  import opened Machine
  import opened RegexpCode

  const NBRA := 9
  const NL: Byte := 10
  const DOLLAR: Byte := 36
  const OPENPAR: Byte := 40
  const CLOSEPAR: Byte := 41
  const ASTERISK: Byte := 42
  const COMMA: Byte := 44
  const DASH: Byte := 45
  const PERIOD: Byte := 46
  const DIGIT0: Byte := 48
  const DIGIT1: Byte := 49
  const DIGIT9: Byte := 57
  const OPENSET: Byte := 91
  const BACKSLASH: Byte := 92
  const CLOSESET: Byte := 93
  const CARET: Byte := 94
  const LETTERN: Byte := 110
  const OPENBRACE: Byte := 123
  const CLOSEBRACE: Byte := 125

  /** The ends of a compilation: a program, the error number of the ERROR macro, the old
      program kept because the pattern is empty, reading past the pattern, or a bracket set
      with an 8-bit character, which is not modelled. */
  datatype Outcome =
    | Compiled(code: seq<Byte>, circf: bool)
    | Error(n: int)
    | OldPattern
    | RanOff
    | WideSet

  // ---------------------------------------------------------------- bracket sets

  function PlaceAt(bits: seq<Byte>, c: Byte): (r: seq<Byte>)
    requires |bits| == 16 && c < 128
    ensures |r| == 16
    ensures forall d: Byte :: d < 128 ==> (IsThere(r, d) <==> IsThere(bits, d) || d == c)
  {
    var b: Byte := Place(bits[c / 8], c % 8);
    var r: seq<Byte> := bits[..c / 8] + [b] + bits[c / 8 + 1..];
    r
  }

  /** The characters of a range up to, not including, its end go into the set one by one. */
  function PlaceRange(bits: seq<Byte>, lc: Byte, c: Byte): (r: seq<Byte>)
    requires |bits| == 16 && c < 128
    ensures |r| == 16
    ensures forall d: Byte :: d < 128 ==> (IsThere(r, d) <==> IsThere(bits, d) || lc <= d < c)
    decreases c - lc
  {
    if lc < c then PlaceRange(PlaceAt(bits, lc), lc + 1, c) else bits
  }

  datatype SetEnd = SetDone(bits: seq<Byte>, rest: seq<Byte>) | SetFail(out: Outcome)

  /** The do loop of the bracket case; c is the character just read. */
  function SetLoop(c: Byte, inp: seq<Byte>, bits: seq<Byte>, lc: Byte): (r: SetEnd)
    requires |bits| == 16
    ensures r.SetDone? ==> |r.bits| == 16 && |r.rest| < |inp|
    decreases |inp|, 1
  {
    if c == 0 || c == NL then SetFail(Error(49))
    else if c >= 128 then SetFail(WideSet)
    else if c == DASH && lc != 0 then
      if inp == [] then SetFail(RanOff)
      else if inp[0] == CLOSESET then SetDone(PlaceAt(bits, DASH), inp[1..])
      else if inp[0] >= 128 then SetFail(WideSet)
      else SetNext(inp[1..], PlaceAt(PlaceRange(bits, lc, inp[0]), inp[0]), inp[0])
    else SetNext(inp, PlaceAt(bits, c), c)
  }

  function SetNext(inp: seq<Byte>, bits: seq<Byte>, lc: Byte): (r: SetEnd)
    requires |bits| == 16
    ensures r.SetDone? ==> |r.bits| == 16 && |r.rest| < |inp|
    decreases |inp|, 0
  {
    if inp == [] then SetFail(RanOff)
    else if inp[0] == CLOSESET then SetDone(bits, inp[1..])
    else SetLoop(inp[0], inp[1..], bits, lc)
  }

  function Zeros(): (z: seq<Byte>)
    ensures |z| == 16 && forall d: Byte :: d < 128 ==> !IsThere(z, d)
  {
    BitZero();
    [0, 0, 0, 0, 0, 0, 0, 0, 0, 0, 0, 0, 0, 0, 0, 0]
  }

  lemma BitZero()
    ensures forall k: nat :: !Bit(0, k)
  {
    forall k: nat
      ensures !Bit(0, k)
    {
      BitZeroAt(k);
    }
  }

  lemma {:induction false} BitZeroAt(k: nat)
    ensures !Bit(0, k)
  {
    if k > 0 {
      BitZeroAt(k - 1);
    }
  }

  // ---------------------------------------------------------------- repetition bounds

  datatype NumEnd = NumDone(n: Int32, stop: Byte, rest: seq<Byte>) | NumFail(out: Outcome)

  predicate IsDigit(c: Byte) { DIGIT0 <= c <= DIGIT9 }

  /** The digits after a number n, which is an int of 32 bits. */
  function NumTail(n: Int32, inp: seq<Byte>): (r: NumEnd)
    ensures r.NumDone? ==> |r.rest| < |inp|
    decreases |inp|
  {
    if inp == [] then NumFail(RanOff)
    else if inp[0] == BACKSLASH || inp[0] == COMMA then NumDone(n, inp[0], inp[1..])
    else if IsDigit(inp[0]) then NumTail(Wrap(n * 10 + (inp[0] - DIGIT0)), inp[1..])
    else NumFail(Error(16))
  }

  /** The part after the label nlim, up to the range check. */
  function Number(inp: seq<Byte>): (r: NumEnd)
    ensures r.NumDone? ==> |r.rest| < |inp| && r.n < 255
  {
    if inp == [] then NumFail(RanOff)
    else if !IsDigit(inp[0]) then NumFail(Error(16))
    else
      var r := NumTail(inp[0] - DIGIT0, inp[1..]);
      if r.NumDone? && r.n >= 255 then NumFail(Error(11)) else r
  }

  datatype RangeEnd = RangeDone(lo: Byte, hi: Byte, rest: seq<Byte>) | RangeFail(out: Outcome)

  /** *ep++ = i keeps the low byte. */
  function LowByte(n: Int32): Byte { n % 256 }

  /** The rest of \{m\}, \{m,\} or \{m,n\}. */
  function RangeBounds(inp: seq<Byte>): (r: RangeEnd)
    ensures r.RangeDone? ==> |r.rest| < |inp|
  {
    var first := Number(inp);
    if first.NumFail? then RangeFail(first.out)
    else if first.stop == COMMA then
      if first.rest == [] then RangeFail(RanOff)
      else if first.rest[0] == BACKSLASH then CloseRange(LowByte(first.n), 255, true, first.rest[1..])
      else
        var second := Number(first.rest);
        if second.NumFail? then RangeFail(second.out)
        else if second.stop == COMMA then RangeFail(Error(44))
        else CloseRange(LowByte(first.n), LowByte(second.n), true, second.rest)
    else CloseRange(LowByte(first.n), LowByte(first.n), false, first.rest)
  }

  function CloseRange(lo: Byte, hi: Byte, cflg: bool, inp: seq<Byte>): (r: RangeEnd)
    ensures r.RangeDone? ==> |r.rest| < |inp|
  {
    if inp == [] then RangeFail(RanOff)
    else if inp[0] != CLOSEBRACE then RangeFail(Error(45))
    else if cflg && hi < lo then RangeFail(Error(46))
    else RangeDone(lo, hi, inp[1..])
  }

  // ---------------------------------------------------------------- the main loop

  /** The variables of compile: the code written, where the last atom starts in it, the open
      groups, and the numbers of groups closed and opened. */
  datatype Work = Work(code: seq<Byte>, lastep: Option<nat>, bracket: seq<Byte>, closed: nat, nbra: nat)

  ghost predicate WorkOk(w: Work) {
    w.lastep.Some? ==> w.lastep.value < |w.code|
  }

  function OrAt(code: seq<Byte>, i: nat, q: Byte): (r: seq<Byte>)
    requires i < |code| && (q == STAR || q == RNGE)
    ensures |r| == |code|
  {
    var b: Byte := if q == STAR then (if code[i] % 2 == 0 then code[i] + 1 else code[i]) else code[i] / 4 * 4 + 3;
    var r: seq<Byte> := code[..i] + [b] + code[i + 1..];
    r
  }

  /** The label defchar. */
  function DefChar(w: Work, c: Byte): (r: Work)
    ensures WorkOk(r)
  {
    w.(lastep := Some(|w.code|), code := w.code + [CCHR, c])
  }

  /** The end of the pattern. */
  function Finish(w: Work, circf: bool): Outcome {
    if w.bracket != [] then Error(42) else Compiled(w.code + [CCEOF], circf)
  }

  function PeekIs(inp: seq<Byte>, c: Byte): bool {
    inp != [] && inp[0] == c
  }

  /** One turn of the loop, or the way it ends. */
  datatype Turn = Go(w: Work, rest: seq<Byte>) | Stop(out: Outcome)

  function StepLoop(inp: seq<Byte>, w0: Work, eof: Byte, sed: bool, cap: nat, circf: bool): (t: Turn)
    requires WorkOk(w0)
    ensures t.Go? ==> WorkOk(t.w) && |t.rest| < |inp|
  {
    if |w0.code| >= cap then Stop(Error(50))
    else if inp == [] then Stop(RanOff)
    else
      var c, rest := inp[0], inp[1..];
      // lastep moves to the next byte; the code is extended before it is used again
      var moves := c != ASTERISK && !(c == BACKSLASH && PeekIs(rest, OPENBRACE));
      var at := if moves then Some(|w0.code|) else w0.lastep;
      if c == eof then Stop(Finish(w0, circf))
      else if c == PERIOD then Go(w0.(code := w0.code + [CDOT], lastep := at), rest)
      else if c == NL then Stop(if sed then Error(36) else Finish(w0, circf))
      else if c == ASTERISK then
        if w0.lastep.None? || w0.code[w0.lastep.value] == CBRA || w0.code[w0.lastep.value] == CKET then
          Go(DefChar(w0, c), rest)
        else Go(w0.(code := OrAt(w0.code, w0.lastep.value, STAR)), rest)
      else if c == DOLLAR then
        if !PeekIs(rest, eof) && !PeekIs(rest, NL) then Go(DefChar(w0, c), rest)
        else Go(w0.(code := w0.code + [CDOL], lastep := at), rest)
      else if c == OPENSET then SetCase(rest, w0, cap)
      else if c == BACKSLASH then Escape(rest, w0)
      else Go(DefChar(w0, c), rest)
  }

  function SetCase(inp: seq<Byte>, w: Work, cap: nat): (t: Turn)
    ensures t.Go? ==> WorkOk(t.w) && |t.rest| < |inp|
  {
    if |w.code| + 17 >= cap then Stop(Error(50))
    else if inp == [] then Stop(RanOff)
    else
      var neg := inp[0] == CARET;
      var body := if neg then inp[1..] else inp;
      if body == [] then Stop(RanOff)
      else
        var r := SetLoop(body[0], body[1..], Zeros(), 0);
        if r.SetFail? then Stop(r.out)
        else
          var bits := if neg then PlaceAt(r.bits, 0) else r.bits;
          var op: Byte := if neg then NCCL else CCL;
          Go(w.(code := w.code + [op] + bits, lastep := Some(|w.code|)), r.rest)
  }

  function Escape(inp: seq<Byte>, w: Work): (t: Turn)
    requires WorkOk(w)
    ensures t.Go? ==> WorkOk(t.w) && |t.rest| < |inp|
  {
    if inp == [] then Stop(RanOff)
    else
      var c, rest := inp[0], inp[1..];
      if c == OPENPAR then
        if w.nbra >= NBRA then Stop(Error(43))
        else
          var n: Byte := w.nbra;
          Go(Work(w.code + [CBRA, n], Some(|w.code|), w.bracket + [n], w.closed, w.nbra + 1), rest)
      else if c == CLOSEPAR then
        if w.bracket == [] then Stop(Error(42))
        else
          var last := |w.bracket| - 1;
          Go(Work(w.code + [CKET, w.bracket[last]], Some(|w.code|), w.bracket[..last], w.closed + 1, w.nbra), rest)
      else if c == OPENBRACE then
        if w.lastep.None? then Go(DefChar(w, c), rest)
        else
          var r := RangeBounds(rest);
          if r.RangeFail? then Stop(r.out)
          else Go(w.(code := OrAt(w.code, w.lastep.value, RNGE) + [r.lo, r.hi]), r.rest)
      else if c == NL then Stop(Error(36))
      else if c == LETTERN then Go(DefChar(w, NL), rest)
      else if DIGIT1 <= c <= DIGIT9 then
        if c - DIGIT1 >= w.closed then Stop(Error(25))
        else Go(w.(code := w.code + [CBACK, c - DIGIT1], lastep := Some(|w.code|)), rest)
      else Go(DefChar(w, c), rest)
  }

  function CompileLoop(inp: seq<Byte>, w: Work, eof: Byte, sed: bool, cap: nat, circf: bool): Outcome
    requires WorkOk(w)
    decreases |inp|
  {
    match StepLoop(inp, w, eof, sed, cap, circf)
    case Stop(out) => out
    case Go(w', rest) => CompileLoop(rest, w', eof, sed, cap, circf)
  }

  const START := Work([], None, [], 0, 0)

  /** compile; `had` says whether an earlier program is in the buffer. */
  function CompileSpec(src: seq<Byte>, eof: Byte, sed: bool, cap: nat, had: bool): Outcome {
    if src == [] then RanOff
    else if src[0] == eof || src[0] == NL then
      if !had && !sed then Error(41) else OldPattern
    else if src[0] == CARET then CompileLoop(src[1..], START, eof, sed, cap, true)
    else CompileLoop(src, START, eof, sed, cap, false)
  }

  // ---------------------------------------------------------------- the loops of the source

  /** The do loop of the bracket case over src from sp on. */
  method ReadSet(src: seq<Byte>, start: nat) returns (r: SetEnd, sp: nat)
    requires start < |src|
    ensures r == SetLoop(src[start], src[start + 1..], Zeros(), 0)
    ensures r.SetDone? ==> start < sp <= |src| && r.rest == src[sp..]
  {
    hide PlaceAt, PlaceRange, Zeros;
    var bits: seq<Byte>, lc: Byte := Zeros(), 0;
    var c := src[start];
    sp := start + 1;
    while true
      invariant start < sp <= |src| && |bits| == 16
      invariant SetLoop(c, src[sp..], bits, lc) == SetLoop(src[start], src[start + 1..], Zeros(), 0)
      decreases |src| - sp
    {
      if c == 0 || c == NL {
        return SetFail(Error(49)), sp;
      }
      if c >= 128 {
        return SetFail(WideSet), sp;
      }
      assert sp < |src| ==> src[sp..][1..] == src[sp + 1..];
      if c == DASH && lc != 0 {
        if sp == |src| {
          return SetFail(RanOff), sp;
        }
        c := src[sp];
        sp := sp + 1;
        if c == CLOSESET {
          return SetDone(PlaceAt(bits, DASH), src[sp..]), sp;
        }
        if c >= 128 {
          return SetFail(WideSet), sp;
        }
        bits := FillRange(bits, lc, c);
      }
      assert sp < |src| ==> src[sp..][1..] == src[sp + 1..];
      lc := c;
      bits := PlaceAt(bits, c);
      if sp == |src| {
        return SetFail(RanOff), sp;
      }
      c := src[sp];
      sp := sp + 1;
      if c == CLOSESET {
        return SetDone(bits, src[sp..]), sp;
      }
    }
  }

  method FillRange(bits0: seq<Byte>, lo: Byte, c: Byte) returns (bits: seq<Byte>)
    requires |bits0| == 16 && c < 128
    ensures bits == PlaceRange(bits0, lo, c)
  {
    var lc: Byte := lo;
    bits := bits0;
    while lc < c
      invariant |bits| == 16 && PlaceRange(bits, lc, c) == PlaceRange(bits0, lo, c)
      decreases c - lc
    {
      bits := PlaceAt(bits, lc);
      lc := lc + 1;
    }
  }

  /** The loop after the label nlim. */
  method ReadNumber(src: seq<Byte>, start: nat) returns (r: NumEnd, sp: nat)
    requires start <= |src|
    ensures r == Number(src[start..])
    ensures r.NumDone? ==> start < sp <= |src| && r.rest == src[sp..]
  {
    sp := start;
    if sp == |src| {
      return NumFail(RanOff), sp;
    }
    var c := src[sp];
    sp := sp + 1;
    if !IsDigit(c) {
      return NumFail(Error(16)), sp;
    }
    var i: Int32 := c - DIGIT0;
    assert src[start..][1..] == src[sp..];
    while true
      invariant start < sp <= |src|
      invariant NumTail(i, src[sp..]) == NumTail(src[start] - DIGIT0, src[start + 1..])
      decreases |src| - sp
    {
      if sp == |src| {
        return NumFail(RanOff), sp;
      }
      assert src[sp..][0] == src[sp] && src[sp..][1..] == src[sp + 1..];
      c := src[sp];
      sp := sp + 1;
      if c == BACKSLASH || c == COMMA {
        break;
      }
      if !IsDigit(c) {
        return NumFail(Error(16)), sp;
      }
      i := Wrap(i * 10 + (c - DIGIT0));
    }
    r := if i >= 255 then NumFail(Error(11)) else NumDone(i, c, src[sp..]);
  }

  /** The case \{ once lastep is known. */
  method ReadRange(src: seq<Byte>, start: nat) returns (r: RangeEnd, sp: nat)
    requires start <= |src|
    ensures r == RangeBounds(src[start..])
    ensures r.RangeDone? ==> start < sp <= |src| && r.rest == src[sp..]
  {
    hide Number;
    var num;
    num, sp := ReadNumber(src, start);
    if num.NumFail? {
      return RangeFail(num.out), sp;
    }
    var lo := LowByte(num.n);
    var hi, cflg := lo, false;
    if num.stop == COMMA {
      cflg := true;
      if sp == |src| {
        return RangeFail(RanOff), sp;
      }
      if src[sp] == BACKSLASH {
        assert src[sp..][1..] == src[sp + 1..];
        hi := 255;
        sp := sp + 1;
      } else {
        num, sp := ReadNumber(src, sp);
        if num.NumFail? {
          return RangeFail(num.out), sp;
        }
        if num.stop == COMMA {
          return RangeFail(Error(44)), sp;
        }
        hi := LowByte(num.n);
      }
    }
    if sp == |src| {
      return RangeFail(RanOff), sp;
    }
    assert src[sp..][0] == src[sp] && src[sp..][1..] == src[sp + 1..];
    sp := sp + 1;
    if src[sp - 1] != CLOSEBRACE {
      return RangeFail(Error(45)), sp;
    }
    if cflg && hi < lo {
      return RangeFail(Error(46)), sp;
    }
    r := RangeDone(lo, hi, src[sp..]);
  }

  /** compile */
  method Compile(src: seq<Byte>, eof: Byte, sed: bool, cap: nat, had: bool) returns (out: Outcome)
    ensures out == CompileSpec(src, eof, sed, cap, had)
  {
    if src == [] {
      return RanOff;
    }
    var sp, circf := 0, false;
    if src[0] == eof || src[0] == NL {
      return if !had && !sed then Error(41) else OldPattern;
    }
    if src[0] == CARET {
      circf := true;
      sp := 1;
    }
    var w := START;
    assert src[0..] == src;
    while true
      invariant 0 <= sp <= |src| && WorkOk(w)
      invariant CompileLoop(src[sp..], w, eof, sed, cap, circf) == CompileSpec(src, eof, sed, cap, had)
      decreases |src| - sp
    {
      var turn, next := ReadTurn(src, sp, w, eof, sed, cap, circf);
      if turn.Stop? {
        return turn.out;
      }
      w, sp := turn.w, next;
    }
  }

  /** One turn of the while loop and its switch. */
  method ReadTurn(src: seq<Byte>, start: nat, w: Work, eof: Byte, sed: bool, cap: nat, circf: bool)
    returns (t: Turn, sp: nat)
    requires start <= |src| && WorkOk(w)
    ensures t == StepLoop(src[start..], w, eof, sed, cap, circf)
    ensures t.Go? ==> start < sp <= |src| && t.rest == src[sp..]
  {
    hide SetLoop, Zeros, PlaceAt, Escape;
    sp := start;
    if |w.code| >= cap {
      return Stop(Error(50)), sp;
    }
    if sp == |src| {
      return Stop(RanOff), sp;
    }
    var c := src[sp];
    assert src[sp..][0] == c && src[sp..][1..] == src[sp + 1..];
    sp := sp + 1;
    var peek := if sp < |src| then src[sp] else 0;
    var lastep := if c != ASTERISK && (c != BACKSLASH || peek != OPENBRACE) then Some(|w.code|) else w.lastep;
    if c == eof {
      return Stop(Finish(w, circf)), sp;
    }
    if c == PERIOD {
      t := Go(w.(code := w.code + [CDOT], lastep := lastep), src[sp..]);
    } else if c == NL {
      t := Stop(if sed then Error(36) else Finish(w, circf));
    } else if c == ASTERISK {
      if w.lastep.None? || w.code[w.lastep.value] == CBRA || w.code[w.lastep.value] == CKET {
        t := Go(DefChar(w, c), src[sp..]);
      } else {
        t := Go(w.(code := OrAt(w.code, w.lastep.value, STAR)), src[sp..]);
      }
    } else if c == DOLLAR {
      if (sp == |src| || peek != eof) && peek != NL {
        t := Go(DefChar(w, c), src[sp..]);
      } else {
        t := Go(w.(code := w.code + [CDOL], lastep := lastep), src[sp..]);
      }
    } else if c == OPENSET {
      t, sp := ReadSetCase(src, sp, w, cap);
    } else if c == BACKSLASH {
      t, sp := ReadEscape(src, sp, w);
    } else {
      t := Go(DefChar(w, c), src[sp..]);
    }
  }

  method ReadSetCase(src: seq<Byte>, start: nat, w: Work, cap: nat) returns (t: Turn, sp: nat)
    requires start <= |src|
    ensures t == SetCase(src[start..], w, cap)
    ensures t.Go? ==> start < sp <= |src| && t.rest == src[sp..]
  {
    hide SetLoop, Zeros, PlaceAt;
    sp := start;
    if |w.code| + 17 >= cap {
      return Stop(Error(50)), sp;
    }
    if sp == |src| {
      return Stop(RanOff), sp;
    }
    var neg := false;
    assert src[sp..][0] == src[sp] && src[sp..][1..] == src[sp + 1..];
    if src[sp] == CARET {
      neg := true;
      sp := sp + 1;
      if sp == |src| {
        return Stop(RanOff), sp;
      }
      assert src[sp..][0] == src[sp] && src[sp..][1..] == src[sp + 1..];
    }
    var r;
    r, sp := ReadSet(src, sp);
    if r.SetFail? {
      return Stop(r.out), sp;
    }
    var bits := if neg then PlaceAt(r.bits, 0) else r.bits;
    var op: Byte := if neg then NCCL else CCL;
    t := Go(w.(code := w.code + [op] + bits, lastep := Some(|w.code|)), src[sp..]);
  }

  method ReadEscape(src: seq<Byte>, start: nat, w: Work) returns (t: Turn, sp: nat)
    requires start <= |src| && WorkOk(w)
    ensures t == Escape(src[start..], w)
    ensures t.Go? ==> start < sp <= |src| && t.rest == src[sp..]
  {
    hide RangeBounds, OrAt;
    sp := start;
    if sp == |src| {
      return Stop(RanOff), sp;
    }
    var c := src[sp];
    assert src[sp..][0] == c && src[sp..][1..] == src[sp + 1..];
    sp := sp + 1;
    if c == OPENPAR {
      if w.nbra >= NBRA {
        return Stop(Error(43)), sp;
      }
      var n: Byte := w.nbra;
      t := Go(Work(w.code + [CBRA, n], Some(|w.code|), w.bracket + [n], w.closed, w.nbra + 1), src[sp..]);
    } else if c == CLOSEPAR {
      if w.bracket == [] {
        return Stop(Error(42)), sp;
      }
      var last := |w.bracket| - 1;
      t := Go(Work(w.code + [CKET, w.bracket[last]], Some(|w.code|), w.bracket[..last], w.closed + 1, w.nbra), src[sp..]);
    } else if c == OPENBRACE && w.lastep.Some? {
      var r;
      r, sp := ReadRange(src, sp);
      if r.RangeFail? {
        return Stop(r.out), sp;
      }
      t := Go(w.(code := OrAt(w.code, w.lastep.value, RNGE) + [r.lo, r.hi]), src[sp..]);
    } else if c == NL {
      t := Stop(Error(36));
    } else if c == LETTERN {
      t := Go(DefChar(w, NL), src[sp..]);
    } else if DIGIT1 <= c <= DIGIT9 {
      if c - DIGIT1 >= w.closed {
        return Stop(Error(25)), sp;
      }
      t := Go(w.(code := w.code + [CBACK, c - DIGIT1], lastep := Some(|w.code|)), src[sp..]);
    } else {
      t := Go(DefChar(w, c), src[sp..]);
    }
  }
}
