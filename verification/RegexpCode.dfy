/**
 The instruction set of System V's regexp.h (head/regexp.h) and what a program means.

 A program is a list of instructions, stored as bytes by Encode. Its meaning is given by
 Follow: how far a program gets in a text when it is told how often to repeat each
 repeated atom. Match is the matcher's search, longest repetition first.
 */
module RegexpCode {
  import opened Options
  import opened Bytes
  import opened Machine

  const CBRA := 2
  const CCHR := 4
  const CDOT := 8
  const CCL := 12
  const CXCL := 16
  const CDOL := 20
  const CCEOF := 22
  const CKET := 24
  const CBACK := 36
  const NCCL := 40
  const STAR := 1
  const RNGE := 3
  /** getrnge's size for an open upper bound. */
  const OPEN := 20000

  // ---------------------------------------------------------------- bit maps

  /** b | bittab[k], in n bits */
  function SetBit(b: nat, k: nat, n: nat): (r: nat)
    requires k < n && b < Pow2(n)
    ensures r < Pow2(n)
  {
    if k == 0 then (if b % 2 == 1 then b else b + 1)
    else 2 * SetBit(b / 2, k - 1, n - 1) + b % 2
  }

  lemma {:induction false} SetBitSets(b: nat, k: nat, n: nat, j: nat)
    requires k < n && b < Pow2(n)
    ensures Bit(SetBit(b, k, n), j) <==> Bit(b, j) || j == k
    decreases k
  {
    if k > 0 && j > 0 {
      SetBitSets(b / 2, k - 1, n - 1, j - 1);
      assert SetBit(b, k, n) / 2 == SetBit(b / 2, k - 1, n - 1);
    }
  }

  lemma SetBitInByte(b: Byte, k: nat)
    requires k < 8
    ensures b < Pow2(8) && SetBit(b, k, 8) < 256
    ensures forall j: nat :: Bit(SetBit(b, k, 8), j) <==> Bit(b, j) || j == k
  {
    ByteBits(b);
    forall j: nat
      ensures Bit(SetBit(b, k, 8), j) <==> Bit(b, j) || j == k
    {
      SetBitSets(b, k, 8, j);
    }
  }

  lemma ByteBits(b: Byte)
    ensures b < Pow2(8) && Pow2(8) == 256
  {
    assert Pow2(4) == 16;
  }

  function Place(b: Byte, k: nat): (r: Byte)
    requires k < 8
    ensures forall j: nat :: Bit(r, j) <==> Bit(b, j) || j == k
  {
    SetBitInByte(b, k);
    SetBit(b, k, 8)
  }

  /** ISTHERE(c) */
  predicate IsThere(bits: seq<Byte>, c: Byte)
    requires c / 8 < |bits|
  {
    Bit(bits[c / 8], c % 8)
  }

  // ---------------------------------------------------------------- instructions

  datatype Atom = Chr(c: Byte) | Dot | Cls(bits: seq<Byte>, neg: bool) | XCls(bits: seq<Byte>)

  datatype Ins = One(a: Atom) | Many(a: Atom) | Rng(a: Atom, lo: Byte, hi: Byte) | Dol | Bra(n: Byte) | Ket(n: Byte)

  predicate Sized(a: Atom) {
    match a
    case Cls(bits, _) => |bits| == 16
    case XCls(bits) => |bits| == 32
    case _ => true
  }

  predicate Takes(a: Atom, c: Byte)
    requires Sized(a)
  {
    match a
    case Chr(d) => c == d
    case Dot => c != 0
    case Cls(bits, neg) => (c < 128 && IsThere(bits, c)) != neg
    case XCls(bits) => IsThere(bits, c)
  }

  /** No atom of a compiled pattern takes the NUL that ends the text. */
  predicate AtomOk(a: Atom) {
    Sized(a) && !Takes(a, 0)
  }

  predicate InsOk(i: Ins) {
    match i
    case One(a) => AtomOk(a)
    case Many(a) => AtomOk(a)
    case Rng(a, lo, hi) => AtomOk(a) && lo < 255 && lo <= hi
    case Bra(n) => n < 9
    case Ket(n) => n < 9
    case Dol => true
  }

  type Program = seq<Ins>

  predicate ProgramOk(p: Program) { forall i :: 0 <= i < |p| ==> InsOk(p[i]) }

  /** The opcode of an atom and the bytes that follow it. */
  function Op(a: Atom): (b: Byte)
    ensures b == CCHR || b == CDOT || b == CCL || b == CXCL || b == NCCL
  {
    match a
    case Chr(_) => CCHR
    case Dot => CDOT
    case Cls(_, neg) => if neg then NCCL else CCL
    case XCls(_) => CXCL
  }

  function Operand(a: Atom): seq<Byte> {
    match a
    case Chr(c) => [c]
    case Dot => []
    case Cls(bits, _) => bits
    case XCls(bits) => bits
  }

  function EncodeIns(i: Ins): (code: seq<Byte>)
    ensures |code| >= 1
  {
    match i
    case One(a) => [Op(a)] + Operand(a)
    case Many(a) => [Op(a) + STAR] + Operand(a)
    case Rng(a, lo, hi) => [Op(a) + RNGE] + Operand(a) + [lo, hi]
    case Dol => [CDOL]
    case Bra(n) => [CBRA, n]
    case Ket(n) => [CKET, n]
  }

  function Encode(p: Program): seq<Byte> {
    if p == [] then [CCEOF] else EncodeIns(p[0]) + Encode(p[1..])
  }

  // ---------------------------------------------------------------- meaning

  predicate TextOk(s: seq<Byte>) { 0 !in s }

  /** k characters from i on are all taken by the atom. */
  predicate AllTaken(a: Atom, s: seq<Byte>, i: nat, k: nat)
    requires Sized(a)
  {
    i + k <= |s| && forall m :: i <= m < i + k ==> Takes(a, s[m])
  }

  /** The repetitions an instruction allows: none, or from least to most (if bounded). */
  predicate Repeats(ins: Ins) { ins.Many? || ins.Rng? }

  /** getrnge's size */
  function Extra(lo: Byte, hi: Byte): (n: int) {
    if hi == 255 then OPEN else hi - lo
  }

  predicate CountOk(ins: Ins, k: nat)
    requires Repeats(ins)
  {
    ins.Rng? ==> ins.lo <= k <= ins.lo + Extra(ins.lo, ins.hi)
  }

  /** Where the program ends when its repetitions are those of ks, if it fits the text. */
  ghost function Follow(p: Program, s: seq<Byte>, i: nat, ks: seq<nat>): (end: Option<nat>)
    requires ProgramOk(p)
    decreases |p|
  {
    if p == [] then (if ks == [] then Some(i) else None)
    else
      assert InsOk(p[0]);
      match p[0]
      case One(a) => if AllTaken(a, s, i, 1) then Follow(p[1..], s, i + 1, ks) else None
      case Dol => if i == |s| then Follow(p[1..], s, i, ks) else None
      case Bra(_) => Follow(p[1..], s, i, ks)
      case Ket(_) => Follow(p[1..], s, i, ks)
      case _ =>
        if ks != [] && CountOk(p[0], ks[0]) && AllTaken(p[0].a, s, i, ks[0]) then
          Follow(p[1..], s, i + ks[0], ks[1..])
        else None
  }

  /** Longer repetitions first, the earlier instruction deciding. */
  ghost predicate LexLe(a: seq<nat>, b: seq<nat>) {
    if a == [] || b == [] then a == b
    else a[0] < b[0] || (a[0] == b[0] && LexLe(a[1..], b[1..]))
  }

  // ---------------------------------------------------------------- the search

  /** The longest run of characters the atom takes. */
  function Run(a: Atom, s: seq<Byte>, i: nat): (k: nat)
    requires Sized(a)
    ensures AllTaken(a, s, i, k) || i > |s|
    ensures i <= |s| ==> i + k <= |s| && (i + k < |s| ==> !Takes(a, s[i + k]))
    ensures i > |s| ==> k == 0
    decreases |s| - i
  {
    if i < |s| && Takes(a, s[i]) then 1 + Run(a, s, i + 1) else 0
  }

  lemma RunIsLongest(a: Atom, s: seq<Byte>, i: nat, k: nat)
    requires Sized(a) && i <= |s|
    ensures AllTaken(a, s, i, k) <==> k <= Run(a, s, i)
  {
  }

  /** The least and the greatest repetition worth trying at i, if any. */
  function Window(ins: Ins, s: seq<Byte>, i: nat): (w: Option<(nat, nat)>)
    requires InsOk(ins) && Repeats(ins)
    ensures w.Some? ==> w.value.0 <= w.value.1
    ensures w.Some? && i <= |s| ==> i + w.value.1 <= |s|
  {
    var run := Run(ins.a, s, i);
    if ins.Many? then Some((0, run))
    else if run < ins.lo then None
    else Some((ins.lo, if run <= ins.lo + Extra(ins.lo, ins.hi) then run else ins.lo + Extra(ins.lo, ins.hi)))
  }

  lemma WindowIs(ins: Ins, s: seq<Byte>, i: nat, k: nat)
    requires InsOk(ins) && Repeats(ins) && i <= |s|
    ensures CountOk(ins, k) && AllTaken(ins.a, s, i, k)
       <==> Window(ins, s, i).Some? && Window(ins, s, i).value.0 <= k <= Window(ins, s, i).value.1
  {
    RunIsLongest(ins.a, s, i, k);
  }

  /** advance: the end of the match at i, trying the longest repetition first. */
  function Match(p: Program, s: seq<Byte>, i: nat): (end: Option<nat>)
    requires ProgramOk(p) && i <= |s|
    decreases |p|, 0
  {
    if p == [] then Some(i)
    else
      assert InsOk(p[0]);
      match p[0]
      case One(a) => if i < |s| && Takes(a, s[i]) then Match(p[1..], s, i + 1) else None
      case Dol => if i == |s| then Match(p[1..], s, i) else None
      case Bra(_) => Match(p[1..], s, i)
      case Ket(_) => Match(p[1..], s, i)
      case _ =>
        match Window(p[0], s, i)
        case None => None
        case Some((least, most)) => TryDown(p[1..], s, i + least, i + most)
  }

  /** The loop at the label star: from the position `at` down to `floor`. */
  function TryDown(p: Program, s: seq<Byte>, floor: nat, at: nat): (end: Option<nat>)
    requires ProgramOk(p) && floor <= at <= |s|
    decreases |p|, 1 + at
  {
    var end := Match(p, s, at);
    if end.Some? || at == floor then end else TryDown(p, s, floor, at - 1)
  }

  /** The position from which that loop succeeds. */
  ghost function DownAt(p: Program, s: seq<Byte>, floor: nat, at: nat): (q: nat)
    requires ProgramOk(p) && floor <= at <= |s| && TryDown(p, s, floor, at).Some?
    ensures floor <= q <= at && Match(p, s, q) == TryDown(p, s, floor, at)
    decreases at
  {
    if Match(p, s, at).Some? then at else DownAt(p, s, floor, at - 1)
  }

  lemma {:induction false} TryDownIs(p: Program, s: seq<Byte>, floor: nat, at: nat)
    requires ProgramOk(p) && floor <= at <= |s|
    ensures TryDown(p, s, floor, at).None? ==> forall r :: floor <= r <= at ==> Match(p, s, r).None?
    ensures TryDown(p, s, floor, at).Some? ==>
              var q := DownAt(p, s, floor, at);
              && floor <= q <= at && Match(p, s, q) == TryDown(p, s, floor, at)
              && forall r :: q < r <= at ==> Match(p, s, r).None?
    decreases at
  {
    if Match(p, s, at).None? && at > floor {
      TryDownIs(p, s, floor, at - 1);
    }
  }

  /** The repetition counts of the match that is found. */
  ghost function Counts(p: Program, s: seq<Byte>, i: nat): seq<nat>
    requires ProgramOk(p) && i <= |s| && Match(p, s, i).Some?
    decreases |p|
  {
    if p == [] then []
    else
      assert InsOk(p[0]);
      match p[0]
      case One(_) => Counts(p[1..], s, i + 1)
      case Dol => Counts(p[1..], s, i)
      case Bra(_) => Counts(p[1..], s, i)
      case Ket(_) => Counts(p[1..], s, i)
      case _ =>
        var (least, most) := Window(p[0], s, i).value;
        var q := DownAt(p[1..], s, i + least, i + most);
        [q - i] + Counts(p[1..], s, q)
  }

  /** The search is sound and complete, and the match it finds is the one whose repetition
      counts are greatest in lexicographic order. */
  lemma {:induction false} MatchIsGreatest(p: Program, s: seq<Byte>, i: nat)
    requires ProgramOk(p) && i <= |s|
    ensures Match(p, s, i).Some? ==> Follow(p, s, i, Counts(p, s, i)) == Match(p, s, i)
    ensures Match(p, s, i).Some? ==> forall other :: Follow(p, s, i, other).Some? ==> LexLe(other, Counts(p, s, i))
    ensures Match(p, s, i).None? ==> forall other :: Follow(p, s, i, other).None?
    decreases |p|
  {
    if p != [] {
      var rest := p[1..];
      assert InsOk(p[0]);
      match p[0]
      case One(a) =>
        if i < |s| && Takes(a, s[i]) {
          MatchIsGreatest(rest, s, i + 1);
        }
      case Dol =>
        if i == |s| {
          MatchIsGreatest(rest, s, i);
        }
      case Bra(_) => MatchIsGreatest(rest, s, i);
      case Ket(_) => MatchIsGreatest(rest, s, i);
      case Many(_) => RepeatIsGreatest(p, s, i);
      case Rng(_, _, _) => RepeatIsGreatest(p, s, i);
    }
  }

  /** What the search does at a repeated atom. */
  lemma MatchRepeat(p: Program, s: seq<Byte>, i: nat)
    requires ProgramOk(p) && i <= |s| && p != [] && Repeats(p[0]) && Match(p, s, i).Some?
    ensures InsOk(p[0]) && ProgramOk(p[1..]) && Window(p[0], s, i).Some?
    ensures var (least, most) := Window(p[0], s, i).value;
            && Match(p, s, i) == TryDown(p[1..], s, i + least, i + most)
            && var q := DownAt(p[1..], s, i + least, i + most);
               Counts(p, s, i) == [q - i] + Counts(p[1..], s, q)
  {
    assert InsOk(p[0]);
  }

  /** Where the repetition ends. */
  ghost function RepeatPlace(p: Program, s: seq<Byte>, i: nat): nat
    requires ProgramOk(p) && i <= |s| && p != [] && Repeats(p[0]) && Match(p, s, i).Some?
  {
    assert InsOk(p[0]);
    var (least, most) := Window(p[0], s, i).value;
    DownAt(p[1..], s, i + least, i + most)
  }

  lemma RepeatFound(p: Program, s: seq<Byte>, i: nat)
    requires ProgramOk(p) && i <= |s| && p != [] && Repeats(p[0]) && Match(p, s, i).Some?
    ensures InsOk(p[0]) && ProgramOk(p[1..])
    ensures var q := RepeatPlace(p, s, i);
            && i <= q <= |s| && Match(p[1..], s, q) == Match(p, s, i)
            && CountOk(p[0], q - i) && AllTaken(p[0].a, s, i, q - i)
            && Counts(p, s, i) == [q - i] + Counts(p[1..], s, q)
            && forall r :: q < r <= |s| && CountOk(p[0], r - i) && AllTaken(p[0].a, s, i, r - i) ==> Match(p[1..], s, r).None?
  {
    hide Match, Counts, Window, AllTaken, CountOk;
    MatchRepeat(p, s, i);
    var (least, most) := Window(p[0], s, i).value;
    TryDownIs(p[1..], s, i + least, i + most);
    var q := DownAt(p[1..], s, i + least, i + most);
    WindowIs(p[0], s, i, q - i);
    forall r | q < r <= |s| && CountOk(p[0], r - i) && AllTaken(p[0].a, s, i, r - i)
      ensures Match(p[1..], s, r).None?
    {
      WindowIs(p[0], s, i, r - i);
    }
  }

  lemma RepeatMissed(p: Program, s: seq<Byte>, i: nat, k: nat)
    requires ProgramOk(p) && i <= |s| && p != [] && Repeats(p[0]) && Match(p, s, i).None?
    ensures InsOk(p[0]) && ProgramOk(p[1..])
    ensures CountOk(p[0], k) && AllTaken(p[0].a, s, i, k) ==> Match(p[1..], s, i + k).None?
  {
    assert InsOk(p[0]);
    var w := Window(p[0], s, i);
    WindowIs(p[0], s, i, k);
    if w.Some? {
      TryDownIs(p[1..], s, i + w.value.0, i + w.value.1);
    }
  }

  lemma FollowRepeat(p: Program, s: seq<Byte>, i: nat, k: nat, ks: seq<nat>)
    requires ProgramOk(p) && p != [] && Repeats(p[0])
    ensures InsOk(p[0]) && ProgramOk(p[1..])
    ensures Follow(p, s, i, [k] + ks) == if CountOk(p[0], k) && AllTaken(p[0].a, s, i, k) then Follow(p[1..], s, i + k, ks) else None
    ensures Follow(p, s, i, []) == None
  {
    assert InsOk(p[0]);
    assert ([k] + ks)[1..] == ks;
  }

  lemma {:induction false} RepeatIsGreatest(p: Program, s: seq<Byte>, i: nat)
    requires ProgramOk(p) && i <= |s| && p != [] && Repeats(p[0])
    ensures Match(p, s, i).Some? ==> Follow(p, s, i, Counts(p, s, i)) == Match(p, s, i)
    ensures Match(p, s, i).Some? ==> forall other :: Follow(p, s, i, other).Some? ==> LexLe(other, Counts(p, s, i))
    ensures Match(p, s, i).None? ==> forall other :: Follow(p, s, i, other).None?
    decreases |p|, 1
  {
    hide Match, Counts, Follow, LexLe;
    if Match(p, s, i).Some? {
      RepeatFound(p, s, i);
      var q := RepeatPlace(p, s, i);
      MatchIsGreatest(p[1..], s, q);
      FollowRepeat(p, s, i, q - i, Counts(p[1..], s, q));
    }
    forall other | Follow(p, s, i, other).Some?
      ensures Match(p, s, i).Some? && LexLe(other, Counts(p, s, i))
    {
      RepeatIsLess(p, s, i, other);
    }
  }

  lemma {:induction false} RepeatIsLess(p: Program, s: seq<Byte>, i: nat, other: seq<nat>)
    requires ProgramOk(p) && i <= |s| && p != [] && Repeats(p[0]) && Follow(p, s, i, other).Some?
    ensures Match(p, s, i).Some? && LexLe(other, Counts(p, s, i))
    decreases |p|, 0
  {
    hide Match, Counts, Follow, AllTaken;
    FollowRepeat(p, s, i, 0, []);
    var m := other[0];
    assert other == [m] + other[1..];
    FollowRepeat(p, s, i, m, other[1..]);
    TakenFits(p[0].a, s, i, m);
    MatchIsGreatest(p[1..], s, i + m);
    if Match(p, s, i).None? {
      RepeatMissed(p, s, i, m);
    } else {
      RepeatFound(p, s, i);
      var q := RepeatPlace(p, s, i);
      assert m <= q - i;
    }
  }

  lemma TakenFits(a: Atom, s: seq<Byte>, i: nat, k: nat)
    requires Sized(a) && AllTaken(a, s, i, k)
    ensures i + k <= |s|
  {
  }

  // ---------------------------------------------------------------- groups

  /** braslist and braelist: where the groups began and ended. */
  datatype Groups = Groups(bras: map<int, nat>, braes: map<int, nat>)

  /** How many instructions repeat their atom. */
  ghost function Repetitions(p: Program): nat {
    if p == [] then 0 else (if Repeats(p[0]) then 1 else 0) + Repetitions(p[1..])
  }

  /** The place `at` is where p comes by before instruction k. */
  ghost predicate Passes(p: Program, s: seq<Byte>, i: nat, ks: seq<nat>, k: nat, at: nat)
    requires ProgramOk(p) && k <= |p|
  {
    var n := Repetitions(p[..k]);
    n <= |ks| && Follow(p[..k], s, i, ks[..n]) == Some(at)
  }

  /** No later instruction is the same. */
  ghost predicate Final(p: Program, k: nat)
    requires k < |p|
  {
    forall m :: k < m < |p| ==> p[m] != p[k]
  }

  /** Every group of p is recorded where p opens it for the last time, and likewise closed. */
  ghost predicate Recorded(p: Program, s: seq<Byte>, i: nat, ks: seq<nat>, g: Groups)
    requires ProgramOk(p)
  {
    forall k :: 0 <= k < |p| && Final(p, k) ==> RecordedAt(p, s, i, ks, g, k)
  }

  ghost predicate RecordedAt(p: Program, s: seq<Byte>, i: nat, ks: seq<nat>, g: Groups, k: nat)
    requires ProgramOk(p) && k < |p|
  {
    && (p[k].Bra? ==> p[k].n in g.bras && Passes(p, s, i, ks, k, g.bras[p[k].n]))
    && (p[k].Ket? ==> p[k].n in g.braes && Passes(p, s, i, ks, k, g.braes[p[k].n]))
  }

  /** What is recorded of groups that are not in p stays. */
  ghost predicate Untouched(p: Program, g: Groups, g': Groups) {
    forall n: Byte ::
      && (Bra(n) !in p ==> (n in g'.bras <==> n in g.bras) && (n in g.bras ==> g'.bras[n] == g.bras[n]))
      && (Ket(n) !in p ==> (n in g'.braes <==> n in g.braes) && (n in g.braes ==> g'.braes[n] == g.braes[n]))
  }

  /** p leads from i to j with the counts ks, and turns the record g into g'. */
  ghost predicate Trail(p: Program, s: seq<Byte>, i: nat, j: nat, ks: seq<nat>, g: Groups, g': Groups)
    requires ProgramOk(p)
  {
    Follow(p, s, i, ks) == Some(j) && Recorded(p, s, i, ks, g') && Untouched(p, g, g')
  }

  lemma {:induction false} RepetitionsConcat(a: Program, b: Program)
    ensures Repetitions(a + b) == Repetitions(a) + Repetitions(b)
    decreases |a|
  {
    if a == [] {
      assert a + b == b;
    } else {
      assert (a + b)[1..] == a[1..] + b;
      RepetitionsConcat(a[1..], b);
    }
  }

  /** One program after another. */
  lemma {:induction false} FollowConcat(a: Program, b: Program, s: seq<Byte>, i: nat, ka: seq<nat>, kb: seq<nat>)
    requires ProgramOk(a) && ProgramOk(b) && Follow(a, s, i, ka).Some?
    ensures |ka| == Repetitions(a)
    ensures ProgramOk(a + b) && Follow(a + b, s, i, ka + kb) == Follow(b, s, Follow(a, s, i, ka).value, kb)
    decreases |a|
  {
    if a == [] {
      assert a + b == b && ka + kb == kb;
    } else {
      var ins, rest := a[0], a[1..];
      assert InsOk(ins);
      assert (a + b)[0] == ins && (a + b)[1..] == rest + b;
      if Repeats(ins) {
        assert (ka + kb)[0] == ka[0] && (ka + kb)[1..] == ka[1..] + kb;
        FollowConcat(rest, b, s, i + ka[0], ka[1..], kb);
      } else {
        FollowConcat(rest, b, s, if ins.One? then i + 1 else i, ka, kb);
      }
    }
  }

  /** What p comes by, when it is the first or the second part of a program. */
  lemma PassesFirst(a: Program, b: Program, s: seq<Byte>, i: nat, ka: seq<nat>, kb: seq<nat>, k: nat, at: nat)
    requires ProgramOk(a) && ProgramOk(a + b) && k <= |a| && Passes(a, s, i, ka, k, at)
    ensures Passes(a + b, s, i, ka + kb, k, at)
  {
    assert (a + b)[..k] == a[..k];
    var n := Repetitions(a[..k]);
    assert (ka + kb)[..n] == ka[..n];
  }

  lemma PassesSecond(a: Program, b: Program, s: seq<Byte>, i: nat, j: nat, ka: seq<nat>, kb: seq<nat>, k: nat, at: nat)
    requires ProgramOk(a) && ProgramOk(b) && ProgramOk(a + b) && k <= |b|
    requires Follow(a, s, i, ka) == Some(j) && Passes(b, s, j, kb, k, at)
    ensures Passes(a + b, s, i, ka + kb, |a| + k, at)
  {
    hide Follow, Repetitions;
    var n := Repetitions(b[..k]);
    assert (a + b)[..|a| + k] == a + b[..k];
    FollowConcat(a, b[..k], s, i, ka, kb[..n]);
    RepetitionsConcat(a, b[..k]);
    assert (ka + kb)[..|ka| + n] == ka + kb[..n];
  }

  lemma TrailJoin(a: Program, b: Program, s: seq<Byte>, i: nat, j: nat, l: nat, ka: seq<nat>, kb: seq<nat>,
                  g0: Groups, g1: Groups, g2: Groups)
    requires ProgramOk(a) && ProgramOk(b) && Trail(a, s, i, j, ka, g0, g1) && Trail(b, s, j, l, kb, g1, g2)
    ensures ProgramOk(a + b) && Trail(a + b, s, i, l, ka + kb, g0, g2)
  {
    var p := a + b;
    FollowConcat(a, b, s, i, ka, kb);
    UntouchedJoin(a, b, g0, g1, g2);
    hide Follow, Passes, Untouched, RecordedAt, Final;
    forall k: nat | k < |p| && Final(p, k)
      ensures RecordedAt(p, s, i, ka + kb, g2, k)
    {
      if k < |a| {
        RecordedFirst(a, b, s, i, ka, kb, g1, g2, k);
      } else {
        RecordedSecond(a, b, s, i, j, ka, kb, g2, k - |a|);
      }
    }
  }

  lemma RecordedFirst(a: Program, b: Program, s: seq<Byte>, i: nat, ka: seq<nat>, kb: seq<nat>, g1: Groups, g2: Groups, k: nat)
    requires ProgramOk(a) && ProgramOk(a + b) && Recorded(a, s, i, ka, g1) && Untouched(b, g1, g2) && k < |a| && Final(a + b, k)
    ensures RecordedAt(a + b, s, i, ka + kb, g2, k)
  {
    hide Passes;
    var p := a + b;
    assert forall m :: 0 <= m < |a| ==> p[m] == a[m];
    assert Final(a, k);
    NotLater(a, b, k);
    if p[k].Bra? {
      PassesFirst(a, b, s, i, ka, kb, k, g2.bras[p[k].n]);
    } else if p[k].Ket? {
      PassesFirst(a, b, s, i, ka, kb, k, g2.braes[p[k].n]);
    }
  }

  lemma RecordedSecond(a: Program, b: Program, s: seq<Byte>, i: nat, j: nat, ka: seq<nat>, kb: seq<nat>, g: Groups, k: nat)
    requires ProgramOk(a) && ProgramOk(b) && ProgramOk(a + b) && Follow(a, s, i, ka) == Some(j)
    requires Recorded(b, s, j, kb, g) && k < |b| && Final(a + b, |a| + k)
    ensures RecordedAt(a + b, s, i, ka + kb, g, |a| + k)
  {
    hide Passes, Follow;
    assert forall m :: 0 <= m < |b| ==> b[m] == (a + b)[|a| + m];
    assert Final(b, k);
    if b[k].Bra? {
      PassesSecond(a, b, s, i, j, ka, kb, k, g.bras[b[k].n]);
    } else if b[k].Ket? {
      PassesSecond(a, b, s, i, j, ka, kb, k, g.braes[b[k].n]);
    }
  }

  lemma NotLater(a: Program, b: Program, k: nat)
    requires k < |a| && Final(a + b, k)
    ensures a[k] !in b
  {
    forall m | 0 <= m < |b|
      ensures b[m] != a[k]
    {
      assert (a + b)[|a| + m] == b[m] && (a + b)[k] == a[k];
    }
  }

  lemma UntouchedJoin(a: Program, b: Program, g0: Groups, g1: Groups, g2: Groups)
    requires Untouched(a, g0, g1) && Untouched(b, g1, g2)
    ensures Untouched(a + b, g0, g2)
  {
  }

  /** What one instruction records at i. */
  ghost function Marked(ins: Ins, i: nat, g: Groups): Groups {
    match ins
    case Bra(n) => g.(bras := g.bras[n := i])
    case Ket(n) => g.(braes := g.braes[n := i])
    case _ => g
  }

  /** The trail of one instruction that does not repeat. */
  lemma OneTrail(ins: Ins, s: seq<Byte>, i: nat, g: Groups)
    requires InsOk(ins) && !Repeats(ins) && (ins.One? ==> AllTaken(ins.a, s, i, 1)) && (ins.Dol? ==> i == |s|)
    ensures Trail([ins], s, i, if ins.One? then i + 1 else i, [], g, Marked(ins, i, g))
  {
    var p: Program := [ins];
    assert p[1..] == [] && p[..0] == [];
    assert Follow(p[..0], s, i, []) == Some(i);
  }

  /** The trail of a repeated atom. */
  lemma RepeatTrail(ins: Ins, s: seq<Byte>, i: nat, k: nat, g: Groups)
    requires InsOk(ins) && Repeats(ins) && CountOk(ins, k) && AllTaken(ins.a, s, i, k)
    ensures Trail([ins], s, i, i + k, [k], g, g)
  {
    var p: Program := [ins];
    assert p[1..] == [];
    var ks: seq<nat> := [k];
    assert ks[1..] == [];
  }
}
