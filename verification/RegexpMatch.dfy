/**
 The matcher of System V's regexp.h (head/regexp.h): step, advance and getrnge over a
 compiled program, shown to compute the search of RegexpCode.
 */
module RegexpMatch {
  import opened Options
  import opened Bytes
  import opened Machine
  import opened RegexpCode

  /** The bytes of the program from ep on are those of p. */
  ghost predicate Holds(code: seq<Byte>, ep: nat, p: Program) {
    ep <= |code| && Encode(p) <= code[ep..]
  }

  /** The operand of the atom stands at ep, after its opcode op. */
  ghost predicate AtomAt(code: seq<Byte>, op: int, ep: nat, a: Atom) {
    op == Op(a) && ep <= |code| && Operand(a) <= code[ep..]
  }

  /** How many bytes follow an opcode. */
  function Width(op: int): nat {
    if op == CCHR then 1 else if op == CCL || op == NCCL then 16 else if op == CXCL then 32 else 0
  }

  /** The test an instruction makes on one character. */
  predicate Test(code: seq<Byte>, op: int, ep: nat, c: Byte)
    requires ep + Width(op) <= |code|
  {
    if op == CCHR then code[ep] == c
    else if op == CDOT then c != 0
    else if op == CXCL then IsThere(code[ep..ep + 32], c)
    else if op == CCL then c < 128 && IsThere(code[ep..ep + 16], c)
    else if op == NCCL then !(c < 128 && IsThere(code[ep..ep + 16], c))
    else false
  }

  lemma TestTakes(code: seq<Byte>, op: int, ep: nat, a: Atom, c: Byte)
    requires Sized(a) && AtomAt(code, op, ep, a)
    ensures Width(op) == |Operand(a)| && ep + Width(op) <= |code|
    ensures Test(code, op, ep, c) <==> Takes(a, c)
  {
    assert code[ep..][..|Operand(a)|] == Operand(a);
    assert code[ep..ep + |Operand(a)|] == Operand(a);
  }

  lemma {:induction false} HoldsNext(code: seq<Byte>, ep: nat, p: Program)
    requires Holds(code, ep, p) && p != []
    ensures ep + |EncodeIns(p[0])| <= |code|
    ensures code[ep..ep + |EncodeIns(p[0])|] == EncodeIns(p[0])
    ensures Holds(code, ep + |EncodeIns(p[0])|, p[1..])
  {
    hide EncodeIns;
    var head, tail := EncodeIns(p[0]), Encode(p[1..]);
    assert Encode(p) == head + tail;
    InARow(code, ep, head, tail);
  }

  /** Two parts in a row. */
  lemma InARow(code: seq<Byte>, ep: nat, head: seq<Byte>, tail: seq<Byte>)
    requires ep <= |code| && head + tail <= code[ep..]
    ensures ep + |head| <= |code| && code[ep..ep + |head|] == head && tail <= code[ep + |head|..]
  {
    assert code[ep..][..|head + tail|] == head + tail;
    assert code[ep + |head|..] == code[ep..][|head|..];
  }

  /** A part of a part. */
  lemma SlicePart(code: seq<Byte>, ep: nat, ins: seq<Byte>, i: nat, j: nat)
    requires ep + |ins| <= |code| && code[ep..ep + |ins|] == ins && i <= j <= |ins|
    ensures code[ep + i..ep + j] == ins[i..j]
  {
    var a, b := code[ep + i..ep + j], ins[i..j];
    forall k | 0 <= k < |a|
      ensures a[k] == b[k]
    {
      assert ins[i + k] == code[ep..ep + |ins|][i + k];
    }
  }

  lemma SliceIsPrefix(code: seq<Byte>, i: nat, s: seq<Byte>)
    requires i + |s| <= |code| && code[i..i + |s|] == s
    ensures s <= code[i..]
  {
    assert code[i..][..|s|] == code[i..i + |s|];
  }

  lemma HoldsEnd(code: seq<Byte>, ep: nat)
    requires Holds(code, ep, [])
    ensures ep < |code| && code[ep] == CCEOF
  {
  }

  /** What stands at an instruction with a repeated or single atom. */
  lemma AtomOf(code: seq<Byte>, ep: nat, p: Program)
    requires Holds(code, ep, p) && p != [] && (p[0].One? || Repeats(p[0])) && Sized(p[0].a)
    ensures var a := p[0].a;
            var q := if p[0].One? then 0 else if p[0].Many? then STAR else RNGE;
            && ep < |code| && code[ep] == Op(a) + q
            && AtomAt(code, Op(a), ep + 1, a)
            && Width(Op(a)) == |Operand(a)|
            && ep + 1 + Width(Op(a)) <= |code|
            && (p[0].Rng? ==>
                  (&& ep + 3 + Width(Op(a)) <= |code|
                   && code[ep + 1 + Width(Op(a))] == p[0].lo && code[ep + 2 + Width(Op(a))] == p[0].hi))
            && Holds(code, ep + 1 + Width(Op(a)) + (if p[0].Rng? then 2 else 0), p[1..])
  {
    hide Holds, Encode, EncodeIns, Operand, Width, Op, Takes;
    HoldsNext(code, ep, p);
    var ins := EncodeIns(p[0]);
    var n := |Operand(p[0].a)|;
    InsParts(p[0]);
    SlicePart(code, ep, ins, 0, 1);
    assert code[ep] == code[ep + 0..ep + 1][0] == ins[0..1][0];
    SlicePart(code, ep, ins, 1, 1 + n);
    SliceIsPrefix(code, ep + 1, Operand(p[0].a));
    if p[0].Rng? {
      SlicePart(code, ep, ins, 1 + n, 3 + n);
      assert code[ep + 1 + n] == code[ep + (1 + n)..ep + (3 + n)][0] == ins[1 + n..3 + n][0];
      assert code[ep + 2 + n] == code[ep + (1 + n)..ep + (3 + n)][1] == ins[1 + n..3 + n][1];
    }
  }

  /** The bytes of an instruction with an atom. */
  lemma InsParts(ins: Ins)
    requires (ins.One? || Repeats(ins)) && Sized(ins.a)
    ensures var e, n := EncodeIns(ins), |Operand(ins.a)|;
            && Width(Op(ins.a)) == n && |e| == 1 + n + (if ins.Rng? then 2 else 0)
            && e[0] == Op(ins.a) + (if ins.One? then 0 else if ins.Many? then STAR else RNGE)
            && e[1..1 + n] == Operand(ins.a)
            && (ins.Rng? ==> e[1 + n] == ins.lo && e[2 + n] == ins.hi)
  {
  }

  // ---------------------------------------------------------------- trails

  lemma NoTrail(p: Program, s: seq<Byte>, i: nat, g: Groups)
    ensures p[..0] == [] && p[0..] == p && Trail([], s, i, i, [], g, g)
  {
  }

  /** The instruction after the first d of them. */
  lemma Parted(p: Program, d: nat)
    requires d <= |p|
    ensures p == p[..d] + p[d..]
    ensures if d < |p| then p[..d + 1] == p[..d] + [p[d]] && p[d + 1..] == p[d..][1..] && p[d] == p[d..][0] else p[..d] == p
  {
  }

  lemma TrailLeaves(p: Program, d: nat, s: seq<Byte>, i: nat, j: nat, g: Groups, g': Groups)
    requires d <= |p| && ProgramOk(p[..d]) && Trail(p[..d], s, i, j, [], g, g')
    ensures Untouched(p, g, g')
  {
    Parted(p, d);
    hide Follow, Recorded;
    assert forall ins :: ins in p[..d] ==> ins in p;
  }

  lemma CountsStep(p: Program, s: seq<Byte>, i: nat)
    requires ProgramOk(p) && i <= |s|
    ensures p == [] ==> Match(p, s, i) == Some(i) && Counts(p, s, i) == []
    ensures p != [] && !Repeats(p[0]) && Match(p, s, i).Some? ==>
              var j := if p[0].One? then i + 1 else i;
              ProgramOk(p[1..]) && j <= |s| && Match(p[1..], s, j).Some? && Counts(p, s, i) == Counts(p[1..], s, j)
  {
    assert p != [] ==> InsOk(p[0]);
  }

  /** One more instruction that does not repeat. */
  lemma TrailStep(p: Program, d: nat, s: seq<Byte>, i0: nat, i: nat, g0: Groups, g: Groups)
    requires ProgramOk(p) && d < |p| && ProgramOk(p[..d]) && Trail(p[..d], s, i0, i, [], g0, g)
    requires !Repeats(p[d]) && (p[d].One? ==> Sized(p[d].a) && AllTaken(p[d].a, s, i, 1)) && (p[d].Dol? ==> i == |s|)
    ensures ProgramOk(p[..d + 1])
    ensures Trail(p[..d + 1], s, i0, if p[d].One? then i + 1 else i, [], g0, Marked(p[d], i, g))
  {
    Parted(p, d);
    assert InsOk(p[d]);
    hide Trail, AllTaken;
    OneTrail(p[d], s, i, g);
    TrailJoin(p[..d], [p[d]], s, i0, i, if p[d].One? then i + 1 else i, [], [], g0, g, Marked(p[d], i, g));
    var none: seq<nat> := [];
    assert none + none == none;
  }

  lemma TakesOne(a: Atom, s: seq<Byte>, i: nat)
    requires Sized(a) && i < |s| && Takes(a, s[i])
    ensures AllTaken(a, s, i, 1)
  {
  }

  lemma UntouchedTwice(p: Program, g0: Groups, g1: Groups, g2: Groups)
    requires Untouched(p, g0, g1) && Untouched(p, g1, g2)
    ensures Untouched(p, g0, g2)
  {
  }

  lemma TrailAfter(p: Program, s: seq<Byte>, i: nat, j: nat, ks: seq<nat>, g0: Groups, g1: Groups, g2: Groups)
    requires ProgramOk(p) && Untouched(p, g0, g1) && Trail(p, s, i, j, ks, g1, g2)
    ensures Trail(p, s, i, j, ks, g0, g2)
  {
    UntouchedTwice(p, g0, g1, g2);
  }

  /** The rest of the program after its first d instructions. */
  lemma TrailEnds(p: Program, d: nat, s: seq<Byte>, i: nat, j: nat, l: nat, g0: Groups, g1: Groups, g2: Groups, ok: bool)
    requires ProgramOk(p) && d <= |p| && i <= |s| && j <= |s| && ProgramOk(p[..d]) && ProgramOk(p[d..])
    requires Trail(p[..d], s, i, j, [], g0, g1) && Untouched(p[d..], g1, g2)
    requires ok ==> Match(p, s, i).Some? && Match(p[d..], s, j).Some? && Counts(p[d..], s, j) == Counts(p, s, i)
                    && Trail(p[d..], s, j, l, Counts(p[d..], s, j), g1, g2)
    ensures ok ==> Trail(p, s, i, l, Counts(p, s, i), g0, g2)
    ensures Untouched(p, g0, g2)
  {
    Parted(p, d);
    if ok {
      hide Follow, Recorded, Untouched, Match, Counts;
      var ks := Counts(p, s, i);
      TrailJoin(p[..d], p[d..], s, i, j, l, [], ks, g0, g1, g2);
      assert [] + ks == ks;
    } else {
      hide Follow, Recorded, Match, Counts;
      UntouchedJoin(p[..d], p[d..], g0, g1, g2);
    }
  }

  class Matcher {
    const text: seq<Byte>
    const code: seq<Byte>
    const circf: bool
    var low: int
    var size: int
    var loc1: nat
    var loc2: nat
    var braslist: map<int, nat>
    var braelist: map<int, nat>

    constructor (text: seq<Byte>, code: seq<Byte>, circf: bool)
      ensures this.text == text && this.code == code && this.circf == circf
      ensures braslist == map[] && braelist == map[]
    {
      this.text, this.code, this.circf := text, code, circf;
      low, size, loc1, loc2, braslist, braelist := 0, 0, 0, 0, map[], map[];
    }

    /** *lp, the NUL included. */
    function Char(lp: nat): (c: Byte)
      requires lp <= |text|
    {
      if lp < |text| then text[lp] else 0
    }

    lemma CharEnds(lp: nat)
      requires TextOk(text) && lp <= |text|
      ensures Char(lp) == 0 <==> lp == |text|
    {
      if lp < |text| {
        assert text[lp] in text;
      }
    }

    lemma CharTakes(a: Atom, lp: nat)
      requires AtomOk(a) && lp <= |text|
      ensures Takes(a, Char(lp)) <==> lp < |text| && Takes(a, text[lp])
    {
    }

    method GetRange(ep: nat)
      requires ep + 1 < |code|
      modifies this`low, this`size
      ensures low == code[ep] && size == Extra(code[ep], code[ep + 1])
    {
      low := code[ep];
      size := if code[ep + 1] == 255 then 20000 else code[ep + 1] - low;
    }

    /** One character more: the test of the code is that of the atom. */
    lemma RunTest(op: int, ep: nat, a: Atom, lp: nat)
      requires AtomOk(a) && AtomAt(code, op, ep, a) && ep + Width(op) <= |code| && lp <= |text|
      ensures Test(code, op, ep, Char(lp)) ==> lp < |text| && Run(a, text, lp) == 1 + Run(a, text, lp + 1)
      ensures !Test(code, op, ep, Char(lp)) ==> Run(a, text, lp) == 0
    {
      hide Test, Takes, AtomAt, Operand;
      TestTakes(code, op, ep, a, Char(lp));
      CharTakes(a, lp);
    }

    /** The loops of the STAR cases: lp ends one past the first character not taken. */
    method ScanStar(op: int, ep: nat, start: nat, ghost a: Atom) returns (lp: nat)
      requires AtomOk(a) && AtomAt(code, op, ep, a) && ep + Width(op) <= |code| && start <= |text|
      ensures lp == start + Run(a, text, start) + 1
    {
      hide Test, Takes, AtomAt, Operand;
      lp := start;
      while true
        invariant start <= lp <= |text|
        invariant lp + Run(a, text, lp) == start + Run(a, text, start)
        decreases |text| - lp
      {
        var c := Char(lp);
        RunTest(op, ep, a, lp);
        lp := lp + 1;
        if !Test(code, op, ep, c) {
          return;
        }
      }
    }

    /** The loops of the RNGE cases: first `low` characters, then at most `size` more; lp
        ends one past the last position to try. */
    method ScanRange(op: int, ep: nat, start: nat, ghost a: Atom, ghost lo: nat, ghost extra: nat)
      returns (ok: bool, curlp: nat, lp: nat)
      requires AtomOk(a) && AtomAt(code, op, ep, a) && ep + Width(op) <= |code| && start <= |text|
      requires low == lo && size == extra
      modifies this`low, this`size
      ensures ok <==> lo <= Run(a, text, start)
      ensures ok ==> curlp == start + lo <= |text|
      ensures ok ==> lp == curlp + Least(Run(a, text, curlp), extra) + 1
      ensures ok ==> Run(a, text, start) == lo + Run(a, text, curlp)
    {
      hide Run, Test, Takes, AtomAt, Operand;
      ok, curlp := ScanLow(op, ep, start, a, lo);
      lp := curlp;
      if ok {
        lp := ScanMore(op, ep, curlp, a, extra);
      }
    }

    /** The first loop: the characters that must be taken. */
    method ScanLow(op: int, ep: nat, start: nat, ghost a: Atom, ghost lo: nat) returns (ok: bool, lp: nat)
      requires AtomOk(a) && AtomAt(code, op, ep, a) && ep + Width(op) <= |code| && start <= |text|
      requires low == lo
      modifies this`low
      ensures ok <==> lo <= Run(a, text, start)
      ensures ok ==> lp == start + lo <= |text| && Run(a, text, start) == lo + Run(a, text, lp)
    {
      hide Run, Test, Takes, AtomAt, Operand;
      lp := start;
      while true
        invariant 0 <= low <= lo && start <= lp <= |text| && lp == start + (lo - low)
        invariant Run(a, text, start) == (lo - low) + Run(a, text, lp)
        decreases low
      {
        var more := low != 0;
        low := low - 1;
        if !more {
          return true, lp;
        }
        var c := Char(lp);
        RunTest(op, ep, a, lp);
        lp := lp + 1;
        if !Test(code, op, ep, c) {
          return false, lp;
        }
      }
    }

    /** The second loop: the characters that may be taken. */
    method ScanMore(op: int, ep: nat, curlp: nat, ghost a: Atom, ghost extra: nat) returns (lp: nat)
      requires AtomOk(a) && AtomAt(code, op, ep, a) && ep + Width(op) <= |code| && curlp <= |text|
      requires size == extra
      modifies this`size
      ensures lp == curlp + Least(Run(a, text, curlp), extra) + 1
    {
      hide Run, Test, Takes, AtomAt, Operand;
      lp := curlp;
      while true
        invariant 0 <= size <= extra && curlp <= lp <= |text| && lp == curlp + (extra - size)
        invariant Run(a, text, curlp) == (extra - size) + Run(a, text, lp)
        decreases size
      {
        var more := size != 0;
        size := size - 1;
        if !more {
          break;
        }
        var c := Char(lp);
        RunTest(op, ep, a, lp);
        lp := lp + 1;
        if !Test(code, op, ep, c) {
          break;
        }
      }
      if size < 0 {
        lp := lp + 1;
      }
    }

    static function Least(a: nat, b: nat): nat { if a <= b then a else b }

    ghost predicate Good(lp: nat, ep: nat, p: Program) {
      TextOk(text) && ProgramOk(p) && lp <= |text| && Holds(code, ep, p)
    }

    /** What is recorded of the groups. */
    ghost function Lists(): Groups
      reads this
    {
      Groups(braslist, braelist)
    }

    /** advance, on a program without back-references and with locs unset. The groups are recorded
        as the match goes that is found, with the counts Counts; a failing attempt leaves its own
        groups behind, but none of others. */
    method Advance(lp0: nat, ep0: nat, ghost prog: Program) returns (ok: bool)
      requires Good(lp0, ep0, prog)
      modifies this`low, this`size, this`loc2, this`braslist, this`braelist
      ensures ok <==> Match(prog, text, lp0).Some?
      ensures ok ==> Some(loc2) == Match(prog, text, lp0)
      ensures ok ==> Trail(prog, text, lp0, loc2, Counts(prog, text, lp0), old(Lists()), Lists())
      ensures Untouched(prog, old(Lists()), Lists())
      decreases |prog|, 1
    {
      hide Holds, AtomAt, Encode, EncodeIns, Run, Takes, Test, Operand, Trail, Untouched, AllTaken, Counts;
      var lp: nat, ep: nat := lp0, ep0;
      ghost var d, p := 0, prog;
      ghost var g := Lists();
      NoTrail(prog, text, lp0, g);
      while true
        invariant Good(lp, ep, p) && d <= |prog| && p == prog[d..] && ProgramOk(prog[..d])
        invariant Match(p, text, lp) == Match(prog, text, lp0)
        invariant Match(p, text, lp).Some? ==> Counts(p, text, lp) == Counts(prog, text, lp0)
        invariant Trail(prog[..d], text, lp0, lp, [], g, Lists())
        decreases |p|
      {
        Opcode(ep, p);
        Parted(prog, d);
        TrailLeaves(prog, d, text, lp0, lp, g, Lists());
        CountsStep(p, text, lp);
        ghost var i, now := lp, Lists();
        var op := code[ep];
        ep := ep + 1;
        if op == CCHR || op == CDOT || op == CCL || op == NCCL || op == CXCL {
          var c := Char(lp);
          TestTakes(code, op, ep, p[0].a, c);
          CharTakes(p[0].a, lp);
          if !Test(code, op, ep, c) {
            return false;
          }
          TakesOne(p[0].a, text, lp);
          lp, ep := lp + 1, ep + Width(op);
        } else if op == CDOL {
          CharEnds(lp);
          if Char(lp) != 0 {
            return false;
          }
        } else if op == CCEOF {
          loc2 := lp;
          return true;
        } else if op == CBRA {
          braslist := braslist[code[ep] := lp];
          ep := ep + 1;
        } else if op == CKET {
          braelist := braelist[code[ep] := lp];
          ep := ep + 1;
        } else {
          if op % 4 == RNGE {
            ok := Range(op - RNGE, ep, lp, p);
          } else {
            ok := Closure(op - STAR, ep, lp, p);
          }
          TrailEnds(prog, d, text, lp0, i, loc2, g, now, Lists(), ok);
          return;
        }
        TrailStep(prog, d, text, lp0, i, g, now);
        d, p := d + 1, p[1..];
      }
    }

    /** The STAR cases. */
    method Closure(op: int, ep: nat, start: nat, ghost p: Program) returns (ok: bool)
      requires ep >= 1 && Good(start, ep - 1, p) && p != [] && p[0].Many? && op == Op(p[0].a)
      modifies this`low, this`size, this`loc2, this`braslist, this`braelist
      ensures ok <==> Match(p, text, start).Some?
      ensures ok ==> Some(loc2) == Match(p, text, start)
      ensures ok ==> Trail(p, text, start, loc2, Counts(p, text, start), old(Lists()), Lists())
      ensures Untouched(p, old(Lists()), Lists())
      decreases |p|, 0
    {
      hide Match, TryDown, Run, Takes, Test, Operand, Encode, EncodeIns, Holds, AtomAt, Width, Op, Trail, Untouched, AllTaken, Counts;
      ghost var g := Lists();
      ManyFacts(ep, start, p);
      var lp := ScanStar(op, ep, start, p[0].a);
      ok := Star(lp, start, ep + Width(op), p[1..]);
      RepeatEnds(p, start, ok, g);
    }

    /** From the loop at star to the whole repetition. */
    lemma RepeatEnds(p: Program, start: nat, ok: bool, g: Groups)
      requires ProgramOk(p) && start <= |text| && p != [] && Repeats(p[0]) && ok == Match(p, text, start).Some?
      requires ok ==> var q := RepeatPlace(p, text, start); Trail(p[1..], text, q, loc2, Counts(p[1..], text, q), g, Lists())
      requires Untouched(p[1..], g, Lists())
      ensures ok ==> Trail(p, text, start, loc2, Counts(p, text, start), g, Lists())
      ensures Untouched(p, g, Lists())
    {
      hide Match, Counts, Trail, AllTaken;
      if ok {
        var q := RepeatPlace(p, text, start);
        RepeatFound(p, text, start);
        RepeatTrail(p[0], text, start, q - start, g);
        TrailJoin([p[0]], p[1..], text, start, q, loc2, [q - start], Counts(p[1..], text, q), g, g, Lists());
        assert [p[0]] + p[1..] == p;
      }
    }

    /** The opcode at ep tells which instruction is next. */
    lemma Opcode(ep: nat, p: Program)
      requires ProgramOk(p) && Holds(code, ep, p)
      ensures ep < |code|
      ensures p == [] ==> code[ep] == CCEOF
      ensures p != [] ==> InsOk(p[0]) && ProgramOk(p[1..])
      ensures p != [] && p[0].Dol? ==> code[ep] == CDOL && Holds(code, ep + 1, p[1..])
      ensures p != [] && p[0].Bra? ==> ep + 1 < |code| && code[ep] == CBRA && code[ep + 1] == p[0].n && Holds(code, ep + 2, p[1..])
      ensures p != [] && p[0].Ket? ==> ep + 1 < |code| && code[ep] == CKET && code[ep + 1] == p[0].n && Holds(code, ep + 2, p[1..])
      ensures p != [] && (p[0].One? || Repeats(p[0])) ==>
                var a := p[0].a;
                && code[ep] == Op(a) + (if p[0].One? then 0 else if p[0].Many? then STAR else RNGE)
                && AtomAt(code, Op(a), ep + 1, a)
                && Holds(code, ep + 1 + Width(Op(a)) + (if p[0].Rng? then 2 else 0), p[1..])
                && ep + 1 + Width(Op(a)) <= |code|
    {
      if p == [] {
        HoldsEnd(code, ep);
      } else {
        assert InsOk(p[0]);
        if p[0].One? || Repeats(p[0]) {
          AtomOf(code, ep, p);
        } else {
          HoldsNext(code, ep, p);
          var ins := EncodeIns(p[0]);
          assert code[ep] == code[ep..ep + |ins|][0] == ins[0];
          assert |ins| > 1 ==> code[ep + 1] == code[ep..ep + |ins|][1] == ins[1];
        }
      }
    }

    lemma RngMatch(p: Program, i: nat)
      requires ProgramOk(p) && p != [] && p[0].Rng? && i <= |text|
      ensures InsOk(p[0])
      ensures var ins := p[0];
              var run := Run(ins.a, text, i);
              if run < ins.lo then Match(p, text, i).None?
              else
                && i + ins.lo + Least(run - ins.lo, Extra(ins.lo, ins.hi)) <= |text|
                && Match(p, text, i)
                   == TryDown(p[1..], text, i + ins.lo, i + ins.lo + Least(run - ins.lo, Extra(ins.lo, ins.hi)))
                && (Match(p, text, i).Some? ==>
                      RepeatPlace(p, text, i)
                      == DownAt(p[1..], text, i + ins.lo, i + ins.lo + Least(run - ins.lo, Extra(ins.lo, ins.hi))))
    {
      assert InsOk(p[0]);
    }

    /** The RNGE cases. */
    method Range(op: int, ep: nat, start: nat, ghost p: Program) returns (ok: bool)
      requires ep >= 1 && Good(start, ep - 1, p) && p != [] && p[0].Rng? && op == Op(p[0].a)
      modifies this`low, this`size, this`loc2, this`braslist, this`braelist
      ensures ok <==> Match(p, text, start).Some?
      ensures ok ==> Some(loc2) == Match(p, text, start)
      ensures ok ==> Trail(p, text, start, loc2, Counts(p, text, start), old(Lists()), Lists())
      ensures Untouched(p, old(Lists()), Lists())
      decreases |p|, 0
    {
      hide Match, TryDown, Run, Takes, Test, Operand, Encode, EncodeIns, Holds, AtomAt, Width, Op, Trail, Untouched, AllTaken, Counts;
      ghost var g := Lists();
      ghost var ins, rest := p[0], p[1..];
      RngFacts(ep, start, p);
      RngMatch(p, start);
      GetRange(ep + Width(op));
      var curlp, lp;
      ok, curlp, lp := ScanRange(op, ep, start, ins.a, ins.lo, Extra(ins.lo, ins.hi));
      if ok {
        ok := Star(lp, curlp, ep + Width(op) + 2, rest);
      } else {
        Stays(rest, g);
      }
      RepeatEnds(p, start, ok, g);
    }

    lemma Stays(p: Program, g: Groups)
      ensures Untouched(p, g, g)
    {
    }

    lemma RngFacts(ep: nat, start: nat, p: Program)
      requires ep >= 1 && Good(start, ep - 1, p) && p != [] && p[0].Rng?
      ensures var ins := p[0];
              var op := Op(ins.a);
              && AtomOk(ins.a) && ins.lo <= ins.hi && 0 <= Extra(ins.lo, ins.hi) && ProgramOk(p[1..])
              && AtomAt(code, op, ep, ins.a) && ep + 1 + Width(op) < |code|
              && code[ep + Width(op)] == ins.lo && code[ep + Width(op) + 1] == ins.hi
              && Holds(code, ep + Width(op) + 2, p[1..])
    {
      hide Run, Takes;
      assert InsOk(p[0]);
      AtomOf(code, ep - 1, p);
    }

    lemma ManyFacts(ep: nat, start: nat, p: Program)
      requires ep >= 1 && Good(start, ep - 1, p) && p != [] && p[0].Many?
      ensures var a := p[0].a;
              var op := Op(a);
              && AtomOk(a) && ProgramOk(p[1..]) && AtomAt(code, op, ep, a) && ep + Width(op) <= |code|
              && Holds(code, ep + Width(op), p[1..])
      ensures var run := Run(p[0].a, text, start);
              && start + run <= |text| && Match(p, text, start) == TryDown(p[1..], text, start, start + run)
              && (Match(p, text, start).Some? ==> RepeatPlace(p, text, start) == DownAt(p[1..], text, start, start + run))
    {
      hide Match, TryDown, DownAt, RepeatPlace, Run, Takes;
      assert InsOk(p[0]);
      AtomOf(code, ep - 1, p);
      ManyMatch(p, start);
    }

    lemma ManyMatch(p: Program, i: nat)
      requires ProgramOk(p) && p != [] && p[0].Many? && InsOk(p[0]) && i <= |text|
      ensures var run := Run(p[0].a, text, i);
              && i + run <= |text| && Match(p, text, i) == TryDown(p[1..], text, i, i + run)
              && (Match(p, text, i).Some? ==> RepeatPlace(p, text, i) == DownAt(p[1..], text, i, i + run))
    {
    }

    /** The loop at the label star, entered with lp one past the last position to try. */
    method Star(start: nat, curlp: nat, ep: nat, ghost p: Program) returns (ok: bool)
      requires start > curlp && Good(start - 1, ep, p)
      modifies this`low, this`size, this`loc2, this`braslist, this`braelist
      ensures ok <==> TryDown(p, text, curlp, start - 1).Some?
      ensures ok ==> Some(loc2) == TryDown(p, text, curlp, start - 1)
      ensures ok ==> var q := DownAt(p, text, curlp, start - 1);
                     Trail(p, text, q, loc2, Counts(p, text, q), old(Lists()), Lists())
      ensures Untouched(p, old(Lists()), Lists())
      decreases |p|, 2
    {
      hide Holds, Encode, Match, Trail, Untouched, Counts;
      ghost var g := Lists();
      var lp := start;
      Stays(p, g);
      while true
        invariant curlp < lp <= start
        invariant TryDown(p, text, curlp, lp - 1) == TryDown(p, text, curlp, start - 1)
        invariant TryDown(p, text, curlp, lp - 1).Some? ==> DownAt(p, text, curlp, lp - 1) == DownAt(p, text, curlp, start - 1)
        invariant Untouched(p, g, Lists())
        decreases lp
      {
        ghost var now := Lists();
        lp := lp - 1;
        ok := Advance(lp, ep, p);
        UntouchedTwice(p, g, now, Lists());
        if ok || lp <= curlp {
          if ok {
            TrailAfter(p, text, lp, loc2, Counts(p, text, lp), g, now, Lists());
          }
          return;
        }
      }
    }

    /** step finds the leftmost match, only at the start for a pattern with a leading ^;
        the scan for a literal first character finds the same one. */
    method Step(ghost prog: Program) returns (ok: bool)
      requires Good(0, 0, prog)
      modifies this
      ensures circf ==> (ok <==> Match(prog, text, 0).Some?)
      ensures !circf ==> (ok <==> exists i :: 0 <= i <= |text| && Match(prog, text, i).Some?)
      ensures ok ==> loc1 <= |text| && Match(prog, text, loc1) == Some(loc2)
      ensures ok && circf ==> loc1 == 0
      ensures ok && !circf ==> forall i :: 0 <= i < loc1 ==> Match(prog, text, i).None?
      ensures ok ==> var ks := Counts(prog, text, loc1);
                     && Follow(prog, text, loc1, ks) == Some(loc2)
                     && (forall other :: Follow(prog, text, loc1, other).Some? ==> LexLe(other, ks))
                     && Recorded(prog, text, loc1, ks, Groups(braslist, braelist))
    {
      ok := Scan(prog);
      if ok {
        MatchIsGreatest(prog, text, loc1);
      }
    }

    method Scan(ghost prog: Program) returns (ok: bool)
      requires Good(0, 0, prog)
      modifies this
      ensures circf ==> (ok <==> Match(prog, text, 0).Some?)
      ensures !circf ==> (ok <==> exists i :: 0 <= i <= |text| && Match(prog, text, i).Some?)
      ensures ok ==> loc1 <= |text| && Match(prog, text, loc1) == Some(loc2)
      ensures ok && circf ==> loc1 == 0
      ensures ok && !circf ==> forall i :: 0 <= i < loc1 ==> Match(prog, text, i).None?
      ensures ok ==> Recorded(prog, text, loc1, Counts(prog, text, loc1), Lists())
    {
      hide Match, Holds, Recorded, Counts;
      Opcode(0, prog);
      if circf {
        loc1 := 0;
        ok := Advance(0, 0, prog);
        return;
      }
      var p1: nat := 0;
      if code[0] == CCHR {
        ghost var a := prog[0].a;
        FirstChar(prog);
        var c := code[1];
        while true
          invariant 0 <= p1 <= |text|
          invariant forall i :: 0 <= i < p1 ==> Match(prog, text, i).None?
          decreases |text| - p1
        {
          if Char(p1) == c {
            ok := Advance(p1, 0, prog);
            if ok {
              loc1 := p1;
              return;
            }
          }
          CharEnds(p1);
          if Char(p1) == 0 {
            return false;
          }
          p1 := p1 + 1;
        }
      }
      while true
        invariant 0 <= p1 <= |text|
        invariant forall i :: 0 <= i < p1 ==> Match(prog, text, i).None?
        decreases |text| - p1
      {
        ok := Advance(p1, 0, prog);
        if ok {
          loc1 := p1;
          return;
        }
        CharEnds(p1);
        if Char(p1) == 0 {
          return false;
        }
        p1 := p1 + 1;
      }
    }

    /** A program that starts with a literal matches only where that character stands. */
    lemma FirstChar(prog: Program)
      requires Good(0, 0, prog) && 0 < |code| && code[0] == CCHR
      ensures 1 < |code|
      ensures forall i :: 0 <= i <= |text| && Match(prog, text, i).Some? ==> Char(i) == code[1]
    {
      Opcode(0, prog);
      TestTakes(code, CCHR, 1, prog[0].a, 0);
      assert Operand(prog[0].a) <= code[1..];
    }
  }
}
