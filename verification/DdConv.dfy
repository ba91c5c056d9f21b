/**
 The record conversions of dd (bin/dd/dd.c): block makes fixed-length records of newline-terminated
 lines, unblock makes lines of records, one byte at a time, through an output buffer of obs bytes.
 */
module DdConv {
  import opened Bytes

  const NL: Byte := 10
  const SPACE: Byte := 32

  /** The conversion flags that concern letters. */
  datatype Flags = Flags(ucase: bool, lcase: bool)

  /** The letter that comes out: with both flags small letters win. */
  function Case(f: Flags, c: Byte): (r: Byte)
    ensures r == SPACE <==> c == SPACE
    ensures r == NL <==> c == NL
  {
    if f.lcase then (if 65 <= c <= 90 then c + 32 else c)
    else if f.ucase && 97 <= c <= 122 then c - 32
    else c
  }

  function Spaces(n: nat): (s: seq<Byte>)
    ensures |s| == n && forall i :: 0 <= i < n ==> s[i] == SPACE
  {
    seq(n, _ => SPACE)
  }

  function Concat(ss: seq<seq<Byte>>): seq<Byte> {
    if ss == [] then [] else ss[0] + Concat(ss[1..])
  }

  // ---------------------------------------------------------------- the conversions as functions

  /** What block makes of s when cbc bytes of the record have gone by. */
  function Blocked(s: seq<Byte>, cbc: nat, cbs: nat, f: Flags): seq<Byte>
    decreases |s|
  {
    if s == [] then []
    else if cbs == 0 then [Case(f, s[0])] + Blocked(s[1..], cbc, cbs, f)
    else if s[0] == NL then Spaces(if cbc < cbs then cbs - cbc else 0) + Blocked(s[1..], 0, cbs, f)
    else (if cbc < cbs then [Case(f, s[0])] else []) + Blocked(s[1..], cbc + 1, cbs, f)
  }

  function BlockPos(s: seq<Byte>, cbc: nat, cbs: nat): nat
    decreases |s|
  {
    if s == [] || cbs == 0 then cbc
    else BlockPos(s[1..], if s[0] == NL then 0 else cbc + 1, cbs)
  }

  /** How many lines block finds to be too long. */
  function Truncs(s: seq<Byte>, cbc: nat, cbs: nat): nat
    decreases |s|
  {
    if s == [] || cbs == 0 then 0
    else (if s[0] != NL && cbc == cbs then 1 else 0) + Truncs(s[1..], if s[0] == NL then 0 else cbc + 1, cbs)
  }

  /** What unblock makes of s when cbc bytes of the record have gone by, the last nspace of them
      spaces that are held back. */
  function Unblocked(s: seq<Byte>, cbc: nat, nspace: nat, cbs: nat, f: Flags): seq<Byte>
    decreases |s|
  {
    if s == [] then []
    else if cbs == 0 then [Case(f, s[0])] + Unblocked(s[1..], cbc, nspace, cbs, f)
    else
      var out := if s[0] == SPACE then [] else Spaces(nspace) + [Case(f, s[0])];
      var held := if s[0] == SPACE then nspace + 1 else 0;
      if cbc + 1 >= cbs then out + [NL] + Unblocked(s[1..], 0, 0, cbs, f)
      else out + Unblocked(s[1..], cbc + 1, held, cbs, f)
  }

  function UnblockPos(s: seq<Byte>, cbc: nat, nspace: nat, cbs: nat): (nat, nat)
    decreases |s|
  {
    if s == [] || cbs == 0 then (cbc, nspace)
    else if cbc + 1 >= cbs then UnblockPos(s[1..], 0, 0, cbs)
    else UnblockPos(s[1..], cbc + 1, if s[0] == SPACE then nspace + 1 else 0, cbs)
  }

  // ---------------------------------------------------------------- the program

  class Converter {
    const cbs: nat
    const obs: nat
    const cflag: Flags
    const obuf: array<Byte>
    var op: nat
    var obc: nat
    var cbc: nat
    var nspace: nat
    var ntrunc: nat
    var nofr: nat
    var nopr: nat
    var written: seq<seq<Byte>>

    /** Until the end, every buffer written was full. */
    ghost predicate Valid()
      reads this
    {
      && obuf.Length == obs > 0 && op == obc < obs
      && (forall w <- written :: |w| == obs)
      && nofr == |written| && nopr == 0
    }

    /** All bytes put out so far. */
    ghost function Emitted(): seq<Byte>
      requires obc <= obuf.Length
      reads this, obuf
    {
      Concat(written) + obuf[..obc]
    }

    constructor (cbs0: nat, obs0: nat, cflag0: Flags)
      requires obs0 > 0
      ensures Valid() && Emitted() == [] && cbc == 0 && nspace == 0 && ntrunc == 0
      ensures cbs == cbs0 && obs == obs0 && cflag == cflag0 && fresh(obuf)
    {
      cbs, obs, cflag := cbs0, obs0, cflag0;
      obuf := new Byte[obs0](_ => 0);
      op, obc, cbc, nspace, ntrunc, nofr, nopr, written := 0, 0, 0, 0, 0, 0, 0, [];
    }

    /** flsh */
    method Flsh()
      requires obc <= obuf.Length && obuf.Length == obs
      modifies this`obc, this`nofr, this`nopr, this`written
      ensures obc == 0 && Emitted() == old(Emitted())
      ensures written == old(written) + (if old(obc) > 0 then [obuf[..old(obc)]] else [])
      ensures nofr == old(nofr) + (if old(obc) == obs && old(obc) > 0 then 1 else 0)
      ensures nopr == old(nopr) + (if 0 < old(obc) < obs then 1 else 0)
    {
      ConcatSnoc(written, obuf[..obc]);
      if obc > 0 {
        if obc == obs {
          nofr := nofr + 1;
        } else {
          nopr := nopr + 1;
        }
        written := written + [obuf[..obc]];
        obc := 0;
      }
    }

    /** null: one byte goes out. */
    method Null(c: Byte)
      requires Valid()
      modifies this`op, this`obc, this`nofr, this`nopr, this`written, obuf
      ensures Valid() && Emitted() == old(Emitted()) + [c]
    {
      hide Concat;
      ghost var was := obuf[..obc];
      obuf[op] := c;
      op := op + 1;
      obc := obc + 1;
      assert obuf[..obc] == was + [c];
      if obc >= obs {
        Flsh();
        op := 0;
      }
    }

    /** The case conversion of cnull and block: to capitals first, then to small letters. */
    method Convert(cc: Byte) returns (c: Byte)
      ensures c == Case(cflag, cc)
    {
      c := cc;
      if cflag.ucase && 97 <= c <= 122 {
        c := c - 32;
      }
      if cflag.lcase && 65 <= c <= 90 {
        c := c + 32;
      }
    }

    method Cnull(c: Byte)
      requires Valid()
      modifies this`op, this`obc, this`nofr, this`nopr, this`written, obuf
      ensures Valid() && Emitted() == old(Emitted()) + [Case(cflag, c)]
    {
      var out := Convert(c);
      Null(out);
    }

    /** block */
    method Block(cc: Byte)
      requires Valid()
      modifies this, obuf
      ensures Valid() && Emitted() == old(Emitted()) + Blocked([cc], old(cbc), cbs, cflag)
      ensures cbc == BlockPos([cc], old(cbc), cbs) && nspace == old(nspace)
      ensures ntrunc == old(ntrunc) + Truncs([cc], old(cbc), cbs)
    {
      hide Concat, Blocked, BlockPos, Truncs, Case;
      var c := Convert(cc);
      BlockOne(cc, cbc, cbs, cflag);
      if cbs == 0 {
        Null(c);
        return;
      }
      if cc == NL {
        Pad();
        cbc := 0;
        return;
      }
      if cbc == cbs {
        ntrunc := ntrunc + 1;
      }
      cbc := cbc + 1;
      if cbc <= cbs {
        Null(c);
      }
    }

    /** The rest of the record is spaces. */
    method Pad()
      requires Valid()
      modifies this`op, this`obc, this`nofr, this`nopr, this`written, this`cbc, obuf
      ensures Valid() && Emitted() == old(Emitted()) + Spaces(if old(cbc) < cbs then cbs - old(cbc) else 0)
    {
      hide Concat;
      ghost var n := 0;
      while cbc < cbs
        invariant Valid() && cbc == old(cbc) + n && (n > 0 ==> cbc <= cbs)
        invariant Emitted() == old(Emitted()) + Spaces(n)
        decreases cbs - cbc
      {
        Null(SPACE);
        cbc := cbc + 1;
        n := n + 1;
        assert Spaces(n) == Spaces(n - 1) + [SPACE];
      }
    }

    /** unblock */
    method Unblock(cc: Byte)
      requires Valid()
      modifies this, obuf
      ensures Valid() && Emitted() == old(Emitted()) + Unblocked([cc], old(cbc), old(nspace), cbs, cflag)
      ensures (cbc, nspace) == UnblockPos([cc], old(cbc), old(nspace), cbs) && ntrunc == old(ntrunc)
    {
      hide Concat, Unblocked, UnblockPos, Case, Spaces;
      UnblockOne(cc, cbc, nspace, cbs, cflag);
      if cbs == 0 {
        Cnull(cc);
        return;
      }
      Hold(cc);
      CountOne();
    }

    /** A space is held back; any other byte follows those held back. */
    method Hold(cc: Byte)
      requires Valid()
      modifies this, obuf
      ensures Valid() && Emitted() == old(Emitted()) + (if cc == SPACE then [] else Spaces(old(nspace)) + [Case(cflag, cc)])
      ensures nspace == (if cc == SPACE then old(nspace) + 1 else 0) && cbc == old(cbc) && ntrunc == old(ntrunc)
    {
      hide Concat, Case, Spaces;
      if cc == SPACE {
        nspace := nspace + 1;
      } else {
        Release();
        Cnull(cc);
      }
    }

    /** One more byte of the record, and a newline at its end. */
    method CountOne()
      requires Valid()
      modifies this, obuf
      ensures Valid() && Emitted() == old(Emitted()) + (if old(cbc) + 1 >= cbs then [NL] else [])
      ensures cbc == (if old(cbc) + 1 >= cbs then 0 else old(cbc) + 1)
      ensures nspace == (if old(cbc) + 1 >= cbs then 0 else old(nspace)) && ntrunc == old(ntrunc)
    {
      hide Concat;
      cbc := cbc + 1;
      if cbc >= cbs {
        Null(NL);
        cbc := 0;
        nspace := 0;
      }
    }

    /** The spaces held back go out. */
    method Release()
      requires Valid()
      modifies this`op, this`obc, this`nofr, this`nopr, this`written, this`nspace, obuf
      ensures Valid() && nspace == 0 && Emitted() == old(Emitted()) + Spaces(old(nspace))
    {
      hide Concat;
      ghost var n := 0;
      while nspace > 0
        invariant Valid() && nspace + n == old(nspace)
        invariant Emitted() == old(Emitted()) + Spaces(n)
      {
        Null(SPACE);
        nspace := nspace - 1;
        n := n + 1;
        assert Spaces(n) == Spaces(n - 1) + [SPACE];
      }
    }

    // -------------------------------------------------------------- a whole input

    /** dd conv=block: every byte goes through block, and the last buffer is flushed. */
    method BlockAll(input: seq<Byte>)
      requires Valid() && Emitted() == [] && cbc == 0 && ntrunc == 0
      modifies this, obuf
      ensures Concat(written) == Blocked(input, 0, cbs, cflag) && ntrunc == Truncs(input, 0, cbs)
      ensures Sized(written, obs, nofr, nopr)
    {
      hide Concat, Blocked, Truncs, BlockPos;
      BlockedNone(cbs, cflag);
      var i := 0;
      while i < |input|
        invariant i <= |input| && Valid()
        invariant Emitted() == Blocked(input[..i], 0, cbs, cflag)
        invariant cbc == BlockPos(input[..i], 0, cbs) && ntrunc == Truncs(input[..i], 0, cbs)
      {
        assert input[..i + 1] == input[..i] + [input[i]];
        BlockedConcat(input[..i], [input[i]], 0, cbs, cflag);
        Block(input[i]);
        i := i + 1;
      }
      assert input[..i] == input;
      Finish();
    }

    /** dd conv=unblock. */
    method UnblockAll(input: seq<Byte>)
      requires Valid() && Emitted() == [] && cbc == 0 && nspace == 0
      modifies this, obuf
      ensures Concat(written) == Unblocked(input, 0, 0, cbs, cflag) && ntrunc == old(ntrunc)
      ensures Sized(written, obs, nofr, nopr)
    {
      hide Concat, Unblocked, UnblockPos;
      UnblockedNone(cbs, cflag);
      var i := 0;
      while i < |input|
        invariant i <= |input| && Valid() && ntrunc == old(ntrunc)
        invariant Emitted() == Unblocked(input[..i], 0, 0, cbs, cflag)
        invariant (cbc, nspace) == UnblockPos(input[..i], 0, 0, cbs)
      {
        assert input[..i + 1] == input[..i] + [input[i]];
        UnblockedConcat(input[..i], [input[i]], 0, 0, cbs, cflag);
        Unblock(input[i]);
        i := i + 1;
      }
      assert input[..i] == input;
      Finish();
    }

    /** The flush at the end of the input. */
    method Finish()
      requires Valid()
      modifies this`obc, this`nofr, this`nopr, this`written
      ensures Concat(written) == old(Emitted()) && Sized(written, obs, nofr, nopr)
    {
      Flsh();
      assert obuf[..0] == [];
    }
  }

  /** Every buffer but the last is full, and the counters are those of full and short buffers. */
  ghost predicate Sized(written: seq<seq<Byte>>, obs: nat, nofr: nat, nopr: nat) {
    && (forall i :: 0 <= i < |written| - 1 ==> |written[i]| == obs)
    && (written != [] ==> 0 < |written[|written| - 1]| <= obs)
    && nopr == (if written != [] && |written[|written| - 1]| < obs then 1 else 0)
    && nofr + nopr == |written|
  }

  lemma {:induction false} ConcatSnoc(ss: seq<seq<Byte>>, s: seq<Byte>)
    ensures Concat(ss + [s]) == Concat(ss) + s
  {
    if ss == [] {
      assert Concat([s]) == s + Concat([]);
    } else {
      ConcatSnoc(ss[1..], s);
      assert (ss + [s])[1..] == ss[1..] + [s];
    }
  }

  lemma BlockOne(c: Byte, cbc: nat, cbs: nat, f: Flags)
    ensures Blocked([c], cbc, cbs, f) ==
            if cbs == 0 then [Case(f, c)]
            else if c == NL then Spaces(if cbc < cbs then cbs - cbc else 0)
            else if cbc < cbs then [Case(f, c)] else []
    ensures BlockPos([c], cbc, cbs) == if cbs == 0 then cbc else if c == NL then 0 else cbc + 1
    ensures Truncs([c], cbc, cbs) == if cbs > 0 && c != NL && cbc == cbs then 1 else 0
  {
    assert [c][1..] == [];
  }

  lemma UnblockOne(c: Byte, cbc: nat, nspace: nat, cbs: nat, f: Flags)
    ensures Unblocked([c], cbc, nspace, cbs, f) ==
            if cbs == 0 then [Case(f, c)]
            else
              var out := if c == SPACE then [] else Spaces(nspace) + [Case(f, c)];
              if cbc + 1 >= cbs then out + [NL] else out
    ensures UnblockPos([c], cbc, nspace, cbs) ==
            if cbs == 0 then (cbc, nspace)
            else if cbc + 1 >= cbs then (0, 0)
            else (cbc + 1, if c == SPACE then nspace + 1 else 0)
  {
    assert [c][1..] == [];
  }

  lemma BlockedNone(cbs: nat, f: Flags)
    ensures Blocked([], 0, cbs, f) == [] && BlockPos([], 0, cbs) == 0 && Truncs([], 0, cbs) == 0
  {
  }

  lemma UnblockedNone(cbs: nat, f: Flags)
    ensures Unblocked([], 0, 0, cbs, f) == [] && UnblockPos([], 0, 0, cbs) == (0, 0)
  {
  }

  lemma FirstOfConcat(a: seq<Byte>, b: seq<Byte>)
    requires a != []
    ensures (a + b)[0] == a[0] && (a + b)[1..] == a[1..] + b
  {
  }

  lemma Associative(a: seq<Byte>, b: seq<Byte>, c: seq<Byte>)
    ensures a + (b + c) == (a + b) + c
  {
  }

  lemma BlockFirst(s: seq<Byte>, cbc: nat, cbs: nat, f: Flags)
    requires s != []
    ensures var c, p := [s[0]], BlockPos([s[0]], cbc, cbs);
            && Blocked(s, cbc, cbs, f) == Blocked(c, cbc, cbs, f) + Blocked(s[1..], p, cbs, f)
            && BlockPos(s, cbc, cbs) == BlockPos(s[1..], p, cbs)
            && Truncs(s, cbc, cbs) == Truncs(c, cbc, cbs) + Truncs(s[1..], p, cbs)
  {
    hide Case, Spaces;
    BlockOne(s[0], cbc, cbs, f);
  }

  lemma UnblockCopies(s: seq<Byte>, cbc: nat, nspace: nat, f: Flags)
    requires s != []
    ensures Unblocked(s, cbc, nspace, 0, f) == [Case(f, s[0])] + Unblocked(s[1..], cbc, nspace, 0, f)
    ensures UnblockPos(s, cbc, nspace, 0) == UnblockPos(s[1..], cbc, nspace, 0)
  {
  }

  lemma UnblockFirst(s: seq<Byte>, cbc: nat, nspace: nat, cbs: nat, f: Flags)
    requires s != []
    ensures var (c, n) := UnblockPos([s[0]], cbc, nspace, cbs);
            && Unblocked(s, cbc, nspace, cbs, f) == Unblocked([s[0]], cbc, nspace, cbs, f) + Unblocked(s[1..], c, n, cbs, f)
            && UnblockPos(s, cbc, nspace, cbs) == UnblockPos(s[1..], c, n, cbs)
  {
    hide Case, Spaces, Unblocked, UnblockPos;
    UnblockOne(s[0], cbc, nspace, cbs, f);
    if cbs > 0 {
      UnblockStep(s, cbc, nspace, cbs, f);
    } else {
      UnblockCopies(s, cbc, nspace, f);
    }
  }

  /** block goes on with the position where the first part leaves it. */
  lemma {:induction false} BlockedConcat(a: seq<Byte>, b: seq<Byte>, cbc: nat, cbs: nat, f: Flags)
    ensures Blocked(a + b, cbc, cbs, f) == Blocked(a, cbc, cbs, f) + Blocked(b, BlockPos(a, cbc, cbs), cbs, f)
    ensures BlockPos(a + b, cbc, cbs) == BlockPos(b, BlockPos(a, cbc, cbs), cbs)
    ensures Truncs(a + b, cbc, cbs) == Truncs(a, cbc, cbs) + Truncs(b, BlockPos(a, cbc, cbs), cbs)
    decreases |a|
  {
    if a == [] {
      assert a + b == b;
    } else {
      hide Blocked, BlockPos, Truncs;
      var p := BlockPos([a[0]], cbc, cbs);
      FirstOfConcat(a, b);
      BlockFirst(a + b, cbc, cbs, f);
      BlockFirst(a, cbc, cbs, f);
      BlockedConcat(a[1..], b, p, cbs, f);
      Associative(Blocked([a[0]], cbc, cbs, f), Blocked(a[1..], p, cbs, f), Blocked(b, BlockPos(a[1..], p, cbs), cbs, f));
    }
  }

  lemma {:induction false} UnblockedConcat(a: seq<Byte>, b: seq<Byte>, cbc: nat, nspace: nat, cbs: nat, f: Flags)
    ensures var (c, n) := UnblockPos(a, cbc, nspace, cbs);
            && Unblocked(a + b, cbc, nspace, cbs, f) == Unblocked(a, cbc, nspace, cbs, f) + Unblocked(b, c, n, cbs, f)
            && UnblockPos(a + b, cbc, nspace, cbs) == UnblockPos(b, c, n, cbs)
    decreases |a|
  {
    if a == [] {
      assert a + b == b;
    } else {
      hide Unblocked, UnblockPos;
      var (c, n) := UnblockPos([a[0]], cbc, nspace, cbs);
      var (c2, n2) := UnblockPos(a, cbc, nspace, cbs);
      FirstOfConcat(a, b);
      UnblockFirst(a + b, cbc, nspace, cbs, f);
      UnblockFirst(a, cbc, nspace, cbs, f);
      UnblockedConcat(a[1..], b, c, n, cbs, f);
      Associative(Unblocked([a[0]], cbc, nspace, cbs, f), Unblocked(a[1..], c, n, cbs, f), Unblocked(b, c2, n2, cbs, f));
    }
  }

  // ---------------------------------------------------------------- lines and records

  type Line = seq<Byte>

  /** No line holds a newline. */
  predicate Lines(ls: seq<Line>) { forall l <- ls :: NL !in l }

  /** The lines as text. */
  function Text(ls: seq<Line>): seq<Byte> {
    if ls == [] then [] else ls[0] + [NL] + Text(ls[1..])
  }

  function Cut(l: Line, n: nat): (r: Line)
    ensures |r| <= n
  {
    if |l| <= n then l else l[..n]
  }

  function Cased(l: Line, f: Flags): (r: Line)
    ensures |r| == |l| && forall i :: 0 <= i < |l| ==> r[i] == Case(f, l[i])
  {
    seq(|l|, i requires 0 <= i < |l| => Case(f, l[i]))
  }

  /** A record: the line cut to cbs bytes and filled with spaces. */
  function Record(l: Line, cbs: nat, f: Flags): (r: seq<Byte>)
    ensures |r| == cbs
  {
    Cased(Cut(l, cbs), f) + Spaces(cbs - |Cut(l, cbs)|)
  }

  function Records(ls: seq<Line>, cbs: nat, f: Flags): (r: seq<seq<Byte>>)
    ensures |r| == |ls| && forall i :: 0 <= i < |r| ==> |r[i]| == cbs
  {
    if ls == [] then [] else [Record(ls[0], cbs, f)] + Records(ls[1..], cbs, f)
  }

  /** Without trailing spaces. */
  function Strip(l: Line): Line {
    if l != [] && l[|l| - 1] == SPACE then Strip(l[..|l| - 1]) else l
  }

  function LongLines(ls: seq<Line>, cbs: nat): nat {
    if ls == [] then 0 else (if |ls[0]| > cbs then 1 else 0) + LongLines(ls[1..], cbs)
  }

  /** One line, up to its newline. */
  lemma {:induction false} BlockedLine(l: Line, cbc: nat, cbs: nat, f: Flags)
    requires cbs > 0 && NL !in l
    ensures Blocked(l, cbc, cbs, f) == Cased(Cut(l, if cbc < cbs then cbs - cbc else 0), f)
    ensures BlockPos(l, cbc, cbs) == cbc + |l|
    ensures Truncs(l, cbc, cbs) == if cbc <= cbs < cbc + |l| then 1 else 0
    decreases |l|
  {
    if l != [] {
      BlockedLine(l[1..], cbc + 1, cbs, f);
      assert l == [l[0]] + l[1..];
    }
  }

  /** block makes one record of every line, and counts exactly the lines that are too long. */
  lemma {:induction false} BlockMakesRecords(ls: seq<Line>, cbs: nat, f: Flags)
    requires cbs > 0 && Lines(ls)
    ensures Blocked(Text(ls), 0, cbs, f) == Concat(Records(ls, cbs, f))
    ensures Truncs(Text(ls), 0, cbs) == LongLines(ls, cbs) && BlockPos(Text(ls), 0, cbs) == 0
  {
    hide Case, Cased, Spaces, Cut;
    if ls != [] {
      var l, rest := ls[0], Text(ls[1..]);
      BlockMakesRecords(ls[1..], cbs, f);
      BlockedLine(l, 0, cbs, f);
      CutLength(l, cbs);
      BlockOne(NL, |l|, cbs, f);
      BlockedConcat(l + [NL], rest, 0, cbs, f);
      BlockedConcat(l, [NL], 0, cbs, f);
    }
  }

  lemma CutLength(l: Line, n: nat)
    ensures |Cut(l, n)| == if |l| < n then |l| else n
  {
  }

  /** A record from the middle: what unblock still puts out for the last r bytes of it. */
  lemma {:induction false} UnblockedTail(r: seq<Byte>, nspace: nat, cbs: nat, f: Flags)
    requires 0 < |r| <= cbs
    ensures Unblocked(r, cbs - |r|, nspace, cbs, f) ==
            (if Strip(r) == [] then [] else Spaces(nspace) + Cased(Strip(r), f)) + [NL]
    ensures UnblockPos(r, cbs - |r|, nspace, cbs) == (0, 0)
    decreases |r|
  {
    hide Case, Spaces, Strip, Cased, Unblocked, UnblockPos;
    var t := r[1..];
    assert r == [r[0]] + t;
    StripCons(r[0], t);
    NoSpaces(t, f);
    UnblockStep(r, cbs - |r|, nspace, cbs, f);
    if t == [] {
      UnblockedNone(cbs, f);
      StripNothing(f);
    } else {
      var held := if r[0] == SPACE then nspace + 1 else 0;
      UnblockedTail(t, held, cbs, f);
      MoreSpaces(nspace);
      CasedCons(r[0], Strip(t), f);
      if r[0] == SPACE {
        Associative(Spaces(nspace), [SPACE], Cased(Strip(t), f));
      } else {
        var out := Spaces(nspace) + [Case(f, r[0])];
        Associative(Spaces(nspace), [Case(f, r[0])], Cased(Strip(t), f));
        Associative(out, Cased(Strip(t), f), [NL]);
        CasedCons(r[0], [], f);
      }
    }
  }

  lemma StripNothing(f: Flags)
    ensures Strip([]) == []
    ensures forall c: Byte :: Cased([c], f) == [Case(f, c)]
  {
  }

  /** One byte that does not end the input. */
  lemma UnblockStep(s: seq<Byte>, cbc: nat, nspace: nat, cbs: nat, f: Flags)
    requires s != [] && cbs > 0
    ensures var out := if s[0] == SPACE then [] else Spaces(nspace) + [Case(f, s[0])];
            var held := if s[0] == SPACE then nspace + 1 else 0;
            if cbc + 1 >= cbs then
              && Unblocked(s, cbc, nspace, cbs, f) == out + [NL] + Unblocked(s[1..], 0, 0, cbs, f)
              && UnblockPos(s, cbc, nspace, cbs) == UnblockPos(s[1..], 0, 0, cbs)
            else
              && Unblocked(s, cbc, nspace, cbs, f) == out + Unblocked(s[1..], cbc + 1, held, cbs, f)
              && UnblockPos(s, cbc, nspace, cbs) == UnblockPos(s[1..], cbc + 1, held, cbs)
  {
    hide Case, Spaces;
  }

  lemma MoreSpaces(n: nat)
    ensures Spaces(n + 1) == Spaces(n) + [SPACE]
  {
  }

  lemma CasedCons(c: Byte, l: Line, f: Flags)
    ensures Cased([c] + l, f) == [Case(f, c)] + Cased(l, f)
    ensures c == SPACE ==> Case(f, c) == SPACE
  {
  }

  lemma {:induction false} StripCons(c: Byte, t: Line)
    ensures Strip([c] + t) == if Strip(t) == [] && c == SPACE then [] else [c] + Strip(t)
    decreases |t|
  {
    var l := [c] + t;
    if t != [] && t[|t| - 1] == SPACE {
      assert l[..|l| - 1] == [c] + t[..|t| - 1];
      StripCons(c, t[..|t| - 1]);
    } else if t == [] {
      assert l[..|l| - 1] == [];
    }
  }

  function Stripped(rs: seq<seq<Byte>>, f: Flags): (r: seq<Line>)
    ensures |r| == |rs|
  {
    if rs == [] then [] else [Cased(Strip(rs[0]), f)] + Stripped(rs[1..], f)
  }

  /** unblock makes one line of every record, without its trailing spaces. */
  lemma {:induction false} UnblockMakesLines(rs: seq<seq<Byte>>, cbs: nat, f: Flags)
    requires cbs > 0 && forall r <- rs :: |r| == cbs
    ensures Unblocked(Concat(rs), 0, 0, cbs, f) == Text(Stripped(rs, f))
  {
    hide Case, Spaces, Cased, Strip, Unblocked, UnblockPos;
    if rs == [] {
      UnblockedNone(cbs, f);
    } else {
      var r := rs[0];
      UnblockMakesLines(rs[1..], cbs, f);
      UnblockedTail(r, 0, cbs, f);
      NoSpaces(Strip(r), f);
      UnblockedConcat(r, Concat(rs[1..]), 0, 0, cbs, f);
    }
  }

  lemma NoSpaces(l: Line, f: Flags)
    ensures Spaces(0) == [] && Cased([], f) == []
  {
  }

  /** What is left of a line: cut to cbs, stripped, and in the case of both conversions. */
  function Restored(l: Line, cbs: nat, f: Flags, g: Flags): Line {
    Cased(Strip(Cased(Cut(l, cbs), f)), g)
  }

  function RestoredLines(ls: seq<Line>, cbs: nat, f: Flags, g: Flags): seq<Line> {
    if ls == [] then [] else [Restored(ls[0], cbs, f, g)] + RestoredLines(ls[1..], cbs, f, g)
  }

  lemma {:induction false} StripSpaces(l: Line, n: nat)
    ensures Strip(l + Spaces(n)) == Strip(l)
    decreases n
  {
    if n == 0 {
      assert l + Spaces(0) == l;
    } else {
      var p := l + Spaces(n);
      assert p[..|p| - 1] == l + Spaces(n - 1);
      StripSpaces(l, n - 1);
    }
  }

  /** unblock after block: each line comes back cut to cbs and without trailing spaces. */
  lemma {:induction false} UnblockAfterBlock(ls: seq<Line>, cbs: nat, f: Flags, g: Flags)
    requires cbs > 0 && Lines(ls)
    ensures Unblocked(Blocked(Text(ls), 0, cbs, f), 0, 0, cbs, g) == Text(RestoredLines(ls, cbs, f, g))
  {
    hide Blocked, Unblocked, Text, Concat;
    BlockMakesRecords(ls, cbs, f);
    var rs := Records(ls, cbs, f);
    forall r <- rs
      ensures |r| == cbs
    {
      var i :| 0 <= i < |rs| && rs[i] == r;
    }
    UnblockMakesLines(rs, cbs, g);
    StrippedRecords(ls, cbs, f, g);
  }

  lemma {:induction false} StrippedRecords(ls: seq<Line>, cbs: nat, f: Flags, g: Flags)
    ensures Stripped(Records(ls, cbs, f), g) == RestoredLines(ls, cbs, f, g)
  {
    hide Case, Cased, Cut, Spaces, Strip;
    if ls != [] {
      StripSpaces(Cased(Cut(ls[0], cbs), f), cbs - |Cut(ls[0], cbs)|);
      StrippedRecords(ls[1..], cbs, f, g);
    }
  }

  /** A line that fits and does not end in a space. */
  predicate Clean(l: Line, cbs: nat) { |l| <= cbs && (l != [] ==> l[|l| - 1] != SPACE) }

  /** Without case conversion, text of clean lines comes back as it was: exactly then. */
  lemma {:induction false} RoundTrip(ls: seq<Line>, cbs: nat)
    requires cbs > 0 && Lines(ls)
    ensures var plain := Flags(false, false);
            Unblocked(Blocked(Text(ls), 0, cbs, plain), 0, 0, cbs, plain) == Text(ls) <==> forall l <- ls :: Clean(l, cbs)
  {
    hide Blocked, Unblocked;
    var plain := Flags(false, false);
    UnblockAfterBlock(ls, cbs, plain, plain);
    RestoredSame(ls, cbs);
  }

  lemma {:induction false} RestoredSame(ls: seq<Line>, cbs: nat)
    ensures var plain := Flags(false, false);
            Text(RestoredLines(ls, cbs, plain, plain)) == Text(ls) <==> forall l <- ls :: Clean(l, cbs)
    ensures var plain := Flags(false, false); |Text(RestoredLines(ls, cbs, plain, plain))| <= |Text(ls)|
  {
    var plain := Flags(false, false);
    if ls != [] {
      RestoredSame(ls[1..], cbs);
      RestoredClean(ls[0], cbs);
      assert forall l <- ls :: l == ls[0] || l in ls[1..];
      var r, rest := Restored(ls[0], cbs, plain, plain), Text(RestoredLines(ls[1..], cbs, plain, plain));
      assert Text(RestoredLines(ls, cbs, plain, plain)) == r + [NL] + rest;
      if r + [NL] + rest == ls[0] + [NL] + Text(ls[1..]) {
        assert |r| == |ls[0]|;
        assert (r + [NL] + rest)[|r| + 1..] == rest;
        assert (ls[0] + [NL] + Text(ls[1..]))[|r| + 1..] == Text(ls[1..]);
      }
    }
  }

  lemma RestoredClean(l: Line, cbs: nat)
    ensures var r := Restored(l, cbs, Flags(false, false), Flags(false, false));
            && |r| <= |l| && (|r| == |l| ==> r == l) && (r == l <==> Clean(l, cbs))
  {
    var plain := Flags(false, false);
    assert Cased(Cut(l, cbs), plain) == Cut(l, cbs);
    var s := Strip(Cut(l, cbs));
    assert Cased(s, plain) == s;
    StripPrefix(Cut(l, cbs));
  }

  lemma {:induction false} StripPrefix(l: Line)
    ensures |Strip(l)| <= |l| && Strip(l) == l[..|Strip(l)|]
    ensures Strip(l) == l <==> (l != [] ==> l[|l| - 1] != SPACE)
  {
    if l != [] && l[|l| - 1] == SPACE {
      StripPrefix(l[..|l| - 1]);
    }
  }
}
