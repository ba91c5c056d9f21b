/**
 The temporary file of ed (bin/ed/ed.c): lines are appended to a file of 512-byte blocks
 behind an input buffer and an output buffer, and are named by a handle. The store must
 behave like a map from handles to lines, also when the blocks are encrypted on disk.
 */
module EdStore {
  import opened Options
  import opened Bytes
  import opened EdCrypt

  datatype Iof = READ | WRITE

  const BLOCK := 512
  const MAXBLOCK := 255

  /** The stored text: everything before the first NUL or newline. */
  function TextLength(buf: seq<Byte>): (n: nat)
    ensures n <= |buf|
    ensures n < |buf| ==> buf[n] == 0 || buf[n] == 10
    ensures forall i :: 0 <= i < n ==> buf[i] != 0 && buf[i] != 10
  {
    if buf == [] || buf[0] == 0 || buf[0] == 10 then 0 else 1 + TextLength(buf[1..])
  }

  /** Bytes a line occupies: its length with the NUL, rounded up to a multiple of 4. */
  function Rounded(n: nat): (r: nat)
    ensures r % 4 == 0 && n <= r < n + 4
  {
    (n + 3) / 4 * 4
  }

  /** The byte at a flat address of a file of full blocks. */
  ghost function At(blocks: seq<seq<Byte>>, a: nat): Byte
    requires a < BLOCK * |blocks| && Full(blocks)
  {
    blocks[a / BLOCK][a % BLOCK]
  }

  ghost predicate Full(blocks: seq<seq<Byte>>) {
    forall b :: 0 <= b < |blocks| ==> |blocks[b]| == BLOCK
  }

  /** The bytes s lie at address a. */
  ghost predicate Spans(blocks: seq<seq<Byte>>, a: nat, s: seq<Byte>) {
    && Full(blocks)
    && a + |s| <= BLOCK * |blocks|
    && (forall k :: a <= k < a + |s| ==> At(blocks, k) == s[k - a])
  }

  /** Byte k of a span, given where it falls. */
  lemma SpanByte(blocks: seq<seq<Byte>>, a: nat, s: seq<Byte>, k: nat, b: nat, bp: nat)
    requires Spans(blocks, a, s) && k < |s| && bp < BLOCK
    requires a + k == BLOCK * b + bp
    ensures b < |blocks| && blocks[b][bp] == s[k]
  {
    assert (a + k) / BLOCK == b && (a + k) % BLOCK == bp;
    assert At(blocks, a + k) == blocks[b][bp];
  }

  lemma SpanPrefix(blocks: seq<seq<Byte>>, a: nat, s: seq<Byte>, c: Byte)
    requires Spans(blocks, a, s + [c])
    ensures Spans(blocks, a, s)
  {
  }

  ghost function Poked(blocks: seq<seq<Byte>>, b: nat, bp: nat, c: Byte): (r: seq<seq<Byte>>)
    requires Full(blocks) && b < |blocks| && bp < BLOCK
    ensures Full(r) && |r| == |blocks|
    ensures At(r, BLOCK * b + bp) == c
  {
    var block: seq<Byte> := blocks[b][..bp] + [c] + blocks[b][bp + 1..];
    blocks[b := block]
  }

  /** The two ways the file changes leave every earlier span alone. */
  lemma PokeKeeps(blocks: seq<seq<Byte>>, b: nat, bp: nat, c: Byte, a: nat, s: seq<Byte>)
    requires Spans(blocks, a, s)
    requires b < |blocks| && bp < BLOCK && a + |s| <= BLOCK * b + bp
    ensures Spans(Poked(blocks, b, bp, c), a, s)
  {
    var blocks' := Poked(blocks, b, bp, c);
    forall k | a <= k < a + |s|
      ensures At(blocks', k) == At(blocks, k)
    {
      if k / BLOCK == b {
        assert k == BLOCK * b + k % BLOCK;
      }
    }
  }

  lemma PokeExtends(blocks: seq<seq<Byte>>, b: nat, bp: nat, c: Byte, a: nat, s: seq<Byte>)
    requires Spans(blocks, a, s)
    requires b < |blocks| && bp < BLOCK && a + |s| == BLOCK * b + bp
    ensures Spans(Poked(blocks, b, bp, c), a, s + [c])
  {
    PokeKeeps(blocks, b, bp, c, a, s);
  }

  lemma AppendKeeps(blocks: seq<seq<Byte>>, last: seq<Byte>, a: nat, s: seq<Byte>)
    requires Spans(blocks, a, s) && |last| == BLOCK
    ensures Spans(blocks + [last], a, s)
  {
    forall k | a <= k < a + |s|
      ensures At(blocks + [last], k) == At(blocks, k)
    {
    }
  }

  /** tline counts in half-bytes, and a line that ends inside a block leaves the next one in it. */
  lemma NextHandle(tline: nat, lp: nat, b: nat)
    requires tline % 2 == 0 && lp > 0 && 2 * tline + lp <= BLOCK * b
    ensures (lp + 3) / 2 - (lp + 3) / 2 % 2 == Rounded(lp) / 2
    ensures 2 * (tline + Rounded(lp) / 2) == 2 * tline + Rounded(lp) <= BLOCK * b
    ensures (tline + Rounded(lp) / 2) % 2 == 0
  {
    hide Rounded;
    Quarters(lp);
    Fits(tline / 2, Rounded(lp) / 4, lp, 128 * b);
  }

  lemma Quarters(lp: nat)
    ensures (lp + 3) / 2 - (lp + 3) / 2 % 2 == Rounded(lp) / 2
    ensures Rounded(lp) == 4 * (Rounded(lp) / 4) && Rounded(lp) / 2 == 2 * (Rounded(lp) / 4)
  {
    var q, r := (lp + 3) / 4, (lp + 3) % 4;
    assert lp + 3 == 4 * q + r;
    assert (lp + 3) / 2 == 2 * q + r / 2;
  }

  /** A whole number of fours that holds lp bytes ends where the fours end. */
  lemma Fits(t: nat, q: nat, lp: nat, m: nat)
    requires 4 * t + lp <= 4 * m && 4 * q < lp + 4
    ensures t + q <= m
  {
  }

  class TempStore {
    var tfile: map<int, seq<Byte>>
    const ibuff: array<Byte>
    const obuff: array<Byte>
    const crbuf: array<Byte>
    const linebuf: array<Byte>
    const t1: array<Byte>
    const t2: array<Byte>
    const t3: array<Byte>
    var xtflag: bool
    var iblock: int
    var oblock: int
    var ichanged: bool
    var nleft: nat
    var tline: nat
    /** Where the text after an embedded newline starts in linebuf. */
    var linebp: Option<nat>

    /** Every block started so far, in plain text. */
    ghost var blocks: seq<seq<Byte>>
    /** The abstract store. */
    ghost var lines: map<int, seq<Byte>>

    ghost predicate Buffers()
    {
      && ibuff.Length == BLOCK && obuff.Length == BLOCK && crbuf.Length == BLOCK && linebuf.Length == BLOCK
      && t1.Length == 256 && t2.Length == 256 && t3.Length == 256
      && ibuff != obuff && ibuff != crbuf && ibuff != linebuf && obuff != crbuf && obuff != linebuf && crbuf != linebuf
      && ibuff !in {t1, t2, t3} && obuff !in {t1, t2, t3} && crbuf !in {t1, t2, t3} && linebuf !in {t1, t2, t3}
    }

    function Tables(): Rotors
      reads t1, t2, t3
    {
      Rotors(t1[..], t2[..], t3[..])
    }

    /** What a block of the file means once read back. */
    ghost function Plain(b: seq<Byte>): seq<Byte>
      requires Buffers()
      reads this`xtflag, t1, t2, t3
    {
      if xtflag then CrSeq(Tables(), b, 0) else b
    }

    /** The cache invariant: only the last block is unwritten, it is never the input block,
        and the input buffer is never dirty. */
    ghost predicate Cached()
      reads this, ibuff, obuff, t1, t2, t3
    {
      && Buffers()
      && (xtflag ==> Tables().Good())
      && -1 <= oblock < MAXBLOCK
      && |blocks| == oblock + 1 && Full(blocks)
      && (oblock >= 0 ==> obuff[..] == blocks[oblock])
      && (iblock == -1 || 0 <= iblock < oblock)
      && (iblock >= 0 ==> ibuff[..] == blocks[iblock])
      && !ichanged
      && FileHolds(oblock)
    }

    /** The file holds the first n blocks, encrypted or not. */
    ghost predicate FileHolds(n: int)
      requires Buffers()
      reads this`tfile, this`blocks, this`xtflag, t1, t2, t3
    {
      && n <= |blocks|
      && (forall b :: 0 <= b < n ==> b in tfile && |tfile[b]| == BLOCK && Plain(tfile[b]) == blocks[b])
    }

    ghost predicate Stored(h: int, line: seq<Byte>)
      reads this`blocks, this`tline
    {
      StoredIn(blocks, h, line)
    }

    ghost predicate StoredIn(blocks: seq<seq<Byte>>, h: int, line: seq<Byte>)
      reads this`tline
    {
      && 2 <= h && h % 2 == 0
      && 0 !in line && 10 !in line && |line| < BLOCK
      && 2 * h + |line| < 2 * tline
      && Spans(blocks, 2 * h, line + [0])
    }

    ghost predicate LinesKept()
      reads this`blocks, this`lines, this`tline
    {
      forall h :: h in lines ==> Stored(h, lines[h])
    }

    ghost predicate Valid()
      reads this, ibuff, obuff, t1, t2, t3
    {
      && Cached()
      && 2 <= tline && tline % 2 == 0
      && BLOCK * oblock <= 2 * tline
      && (2 * tline <= BLOCK * |blocks| || (tline == 2 && oblock == -1))
      && LinesKept()
    }

    /** The block and offset of a handle: (atl>>8)&0377 and (atl<<1)&0774. */
    static function BlockOf(atl: nat): (b: nat) { atl / 256 % 256 }
    static function OffsetOf(atl: nat): (o: nat)
      ensures o == 2 * (atl % 256 - atl % 2)
      ensures o <= 508
    {
      2 * (atl % 256) / 4 * 4
    }

    constructor (t1: array<Byte>, t2: array<Byte>, t3: array<Byte>, encrypt: bool)
      requires t1.Length == 256 && t2.Length == 256 && t3.Length == 256
      requires encrypt ==> Rotors(t1[..], t2[..], t3[..]).Good()
      ensures Valid() && lines == map[] && Ordered(Abs(tline, lines)) && fresh(this)
      ensures fresh(ibuff) && fresh(obuff) && fresh(crbuf) && fresh(linebuf)
      ensures this.t1 == t1 && this.t2 == t2 && this.t3 == t3 && xtflag == encrypt
    {
      ibuff, obuff := new Byte[BLOCK](_ => 0), new Byte[BLOCK](_ => 0);
      crbuf, linebuf := new Byte[BLOCK](_ => 0), new Byte[BLOCK](_ => 0);
      this.t1, this.t2, this.t3 := t1, t2, t3;
      xtflag := encrypt;
      tfile, iblock, oblock, ichanged, nleft := map[], -1, -1, false, 0;
      tline, linebp := 2, None;
      blocks, lines := [], map[];
    }

    /** getblock: make the block of atl addressable and say where in which buffer.
        A block number of 255 or more is the error exit. */
    method GetBlock(atl: nat, iof: Iof) returns (ok: bool, buf: array<Byte>, off: nat)
      requires Cached()
      requires iof == READ ==> BlockOf(atl) <= oblock
      requires iof == WRITE ==> oblock <= BlockOf(atl) <= oblock + 1
      modifies this`tfile, this`iblock, this`oblock, this`ichanged, this`nleft, this`blocks, ibuff, crbuf
      ensures Cached()
      ensures ok <==> BlockOf(atl) < MAXBLOCK
      ensures buf == ibuff || buf == obuff
      ensures !ok || iof == READ ==> oblock == old(oblock) && blocks == old(blocks)
      ensures ok ==> off == OffsetOf(atl) && nleft == BLOCK - off
      ensures ok && iof == READ ==> buf[..] == blocks[BlockOf(atl)]
      ensures ok && iof == WRITE ==> oblock == BlockOf(atl) && buf == obuff
      ensures ok && iof == WRITE ==>
                blocks == if oblock == old(oblock) then old(blocks) else old(blocks) + [obuff[..]]
    {
      hide FileHolds, Plain, Tables;
      var bno := BlockOf(atl);
      off := OffsetOf(atl);
      if bno >= MAXBLOCK {
        return false, ibuff, off;
      }
      nleft := BLOCK - off;
      if bno == iblock {
        ichanged := ichanged || iof == WRITE;
        return true, ibuff, off;
      }
      if bno == oblock {
        return true, obuff, off;
      }
      if iof == READ {
        NextInput(bno);
        return true, ibuff, off;
      }
      NextOutput(bno);
      return true, obuff, off;
    }

    /** The reading part of getblock. A dirty input block would be written back first, but
        no run makes one. */
    method NextInput(bno: int)
      requires Cached() && 0 <= bno < oblock
      modifies this`iblock, this`ichanged, ibuff
      ensures Cached()
      ensures iblock == bno
    {
      if ichanged {
        assert false;
      }
      ichanged := false;
      iblock := bno;
      FetchBlock(bno);
      assert FileHolds(oblock);
    }

    /** The tail of getblock: write the output block out and start the next one, which
        begins with the bytes the buffer already holds. */
    method NextOutput(bno: int)
      requires Cached() && bno == oblock + 1 < MAXBLOCK
      modifies this`tfile, this`oblock, this`blocks, crbuf
      ensures Cached()
      ensures oblock == bno && blocks == old(blocks) + [obuff[..]]
    {
      hide FileHolds, Plain, Tables;
      if oblock >= 0 {
        WriteOutput();
      } else {
        NoBlocks();
      }
      oblock := bno;
      StartBlock();
    }

    lemma NoBlocks()
      requires Buffers()
      ensures FileHolds(0)
    {
    }

    lemma CachedFacts()
      requires Cached()
      ensures Buffers() && -1 <= oblock < MAXBLOCK && |blocks| == oblock + 1 && Full(blocks)
    {
      hide FileHolds, Tables, Full;
    }

    /** The output block goes to the file, which then holds all blocks started. */
    method WriteOutput()
      requires Cached() && oblock >= 0
      modifies this`tfile, crbuf
      ensures FileHolds(oblock + 1) && Tables() == old(Tables())
    {
      hide Plain, Tables;
      ghost var was := tfile;
      FlushBlock();
      forall b | 0 <= b <= oblock
        ensures b in tfile && |tfile[b]| == BLOCK && Plain(tfile[b]) == blocks[b]
      {
        if b < oblock {
          assert tfile[b] == was[b];
        }
      }
    }

    ghost method StartBlock()
      requires Buffers() && FileHolds(|blocks|)
      modifies this`blocks
      ensures blocks == old(blocks) + [obuff[..]] && FileHolds(|blocks| - 1)
    {
      hide Plain, Tables;
      ghost var was := blocks;
      blocks := blocks + [obuff[..]];
      forall b | 0 <= b < |was|
        ensures b in tfile && |tfile[b]| == BLOCK && Plain(tfile[b]) == blocks[b]
      {
        assert blocks[b] == was[b];
      }
    }

    /** blkio(bno, ibuff, read), and the decryption that follows it. */
    method FetchBlock(bno: int)
      requires Buffers() && bno in tfile && |tfile[bno]| == BLOCK
      modifies ibuff
      ensures ibuff[..] == Plain(tfile[bno])
    {
      forall i | 0 <= i < BLOCK {
        ibuff[i] := tfile[bno][i];
      }
      assert ibuff[..] == tfile[bno];
      if xtflag {
        CrBlock(t1, t2, t3, ibuff, 0);
      }
    }

    /** blkio(oblock, ..., write), through a copy when the file is encrypted. */
    method FlushBlock()
      requires Buffers() && (xtflag ==> Tables().Good())
      modifies this`tfile, crbuf
      ensures tfile.Keys == old(tfile.Keys) + {oblock}
      ensures forall b :: b in old(tfile) && b != oblock ==> tfile[b] == old(tfile)[b]
      ensures |tfile[oblock]| == BLOCK && Plain(tfile[oblock]) == obuff[..]
    {
      if xtflag {
        var n := 0;
        while n < BLOCK
          invariant 0 <= n <= BLOCK
          invariant crbuf[..n] == obuff[..n]
          modifies crbuf
        {
          crbuf[n] := obuff[n];
          n := n + 1;
        }
        assert crbuf[..] == obuff[..];
        CrBlock(t1, t2, t3, crbuf, 0);
        CrSeqInvolution(Tables(), obuff[..], 0);
        tfile := tfile[oblock := crbuf[..]];
      } else {
        tfile := tfile[oblock := obuff[..]];
      }
    }

    /** Where a handle points: the mark in its low bit is ignored. */
    static lemma HandleParts(handle: nat, b: nat)
      requires b == handle / 256 < 256
      ensures BlockOf(handle) == b
      ensures BLOCK * b + OffsetOf(handle) == 2 * (handle - handle % 2)
    {
    }

    static lemma BlockStart(b: nat)
      requires b < 256
      ensures BlockOf(256 * b) == b && OffsetOf(256 * b) == 0
    {
    }

    /** getline: copy the line of a handle, whose low bit may carry a mark, into linebuf. */
    method GetLine(handle: nat)
      requires Valid() && handle - handle % 2 in lines
      modifies this`tfile, this`iblock, this`oblock, this`ichanged, this`nleft, this`blocks, ibuff, crbuf, linebuf
      ensures Valid() && lines == old(lines) && tline == old(tline) && oblock == old(oblock) && blocks == old(blocks)
      ensures var line := lines[handle - handle % 2];
              linebuf[..|line| + 1] == line + [0] && TextLength(linebuf[..]) == |line| < BLOCK
    {
      ghost var h := handle - handle % 2;
      ghost var line := lines[h];
      assert Stored(h, line);
      CopyLine(handle, h, line);
      assert linebuf[..|line| + 1] == line + [0];
      TextLengthIs(linebuf[..], |line|);
    }

    method Continue(tl: nat, ghost b: nat) returns (buf: array<Byte>)
      requires Cached() && tl == 256 * b && b <= oblock
      modifies this`tfile, this`iblock, this`oblock, this`ichanged, this`nleft, this`blocks, ibuff, crbuf
      ensures Cached() && oblock == old(oblock) && blocks == old(blocks)
      ensures (buf == ibuff || buf == obuff) && buf[..] == blocks[b] && nleft == BLOCK
    {
      BlockStart(b);
      var ok, bp;
      ok, buf, bp := GetBlock(tl, READ);
    }

    method CopyLine(handle: nat, ghost h: nat, ghost line: seq<Byte>)
      requires Cached() && h == handle - handle % 2
      requires Spans(blocks, 2 * h, line + [0]) && |line| < BLOCK && 0 !in line
      modifies this`tfile, this`iblock, this`oblock, this`ichanged, this`nleft, this`blocks, ibuff, crbuf, linebuf
      ensures Cached() && oblock == old(oblock) && blocks == old(blocks)
      ensures forall k :: 0 <= k < |line| ==> linebuf[k] == line[k]
      ensures linebuf[|line|] == 0
    {
      hide Cached, Spans, At, BlockOf, OffsetOf;
      ghost var b := handle / 256;
      CachedFacts();
      InFile(handle, h, line);
      HandleParts(handle, b);
      var ok, buf, bp := GetBlock(handle, READ);
      var nl := nleft;
      var tl := handle - handle % 256;
      var lp := 0;
      assert tl == 256 * b;
      while true
        invariant Cached() && Buffers() && oblock == old(oblock) && blocks == old(blocks)
        invariant 0 <= lp <= |line| && forall k :: 0 <= k < lp ==> linebuf[k] == line[k]
        invariant 0 <= b <= oblock && tl == 256 * b && 0 <= bp < BLOCK && nl == BLOCK - bp
        invariant BLOCK * b + bp == 2 * h + lp
        invariant (buf == ibuff || buf == obuff) && buf[..] == blocks[b]
        decreases |line| - lp
      {
        SpanByte(blocks, 2 * h, line + [0], lp, b, bp);
        linebuf[lp] := buf[bp];
        lp, bp := lp + 1, bp + 1;
        if linebuf[lp - 1] == 0 {
          break;
        }
        nl := nl - 1;
        if nl == 0 {
          SpanByte(blocks, 2 * h, line + [0], lp, b + 1, 0);
          b, tl := b + 1, tl + 256;
          buf := Continue(tl, b);
          bp, nl := 0, nleft;
        }
      }
    }

    lemma InFile(handle: nat, h: nat, line: seq<Byte>)
      requires h == handle - handle % 2 && Spans(blocks, 2 * h, line + [0])
      ensures handle / 256 < |blocks|
    {
      hide At;
    }

    /** Put one byte into the output buffer. */
    method Poke(bp: nat, c: Byte)
      requires Cached() && 0 <= oblock && bp < BLOCK
      modifies this`blocks, obuff
      ensures Cached() && blocks == Poked(old(blocks), oblock, bp, c)
    {
      hide FileHolds, Plain, Tables, At;
      obuff[bp] := c;
      ghost var was := blocks;
      assert obuff[..] == was[oblock][..bp] + [c] + was[oblock][bp + 1..];
      PokeBlocks(Poked(was, oblock, bp, c));
    }

    ghost method PokeBlocks(blocks': seq<seq<Byte>>)
      requires Buffers() && FileHolds(oblock) && -1 <= oblock < |blocks|
      requires |blocks'| == |blocks| && forall b :: 0 <= b < oblock ==> blocks'[b] == blocks[b]
      modifies this`blocks
      ensures blocks == blocks' && FileHolds(oblock)
    {
      hide Plain;
      blocks := blocks';
    }

    lemma PokeKeepsLines(was: seq<seq<Byte>>, bp: nat, c: Byte)
      requires 0 <= oblock < |was| && bp < BLOCK && Full(was)
      requires forall h :: h in lines ==> StoredIn(was, h, lines[h])
      requires 2 * tline <= BLOCK * oblock + bp
      ensures forall h :: h in lines ==> StoredIn(Poked(was, oblock, bp, c), h, lines[h])
    {
      forall h | h in lines
        ensures StoredIn(Poked(was, oblock, bp, c), h, lines[h])
      {
        assert StoredIn(was, h, lines[h]);
        PokeKeeps(was, oblock, bp, c, 2 * h, lines[h] + [0]);
      }
    }

    /** *bp = c for the next byte of the line being stored. */
    method StoreByte(bp: nat, c: Byte, ghost part: seq<Byte>)
      requires Cached() && LinesKept() && 0 <= oblock && bp < BLOCK
      requires 2 * tline + |part| == BLOCK * oblock + bp && Spans(blocks, 2 * tline, part)
      modifies this`blocks, obuff
      ensures Cached() && LinesKept()
      ensures Spans(blocks, 2 * tline, part + [c])
    {
      ghost var was := blocks;
      PokeExtends(was, oblock, bp, c, 2 * tline, part);
      PokeKeepsLines(was, bp, c);
      Poke(bp, c);
    }

    lemma AppendKeepsLines(was: seq<seq<Byte>>, last: seq<Byte>)
      requires Full(was) && |last| == BLOCK
      requires forall h :: h in lines ==> StoredIn(was, h, lines[h])
      ensures forall h :: h in lines ==> StoredIn(was + [last], h, lines[h])
    {
      forall h | h in lines
        ensures StoredIn(was + [last], h, lines[h])
      {
        assert StoredIn(was, h, lines[h]);
        AppendKeeps(was, last, 2 * h, lines[h] + [0]);
      }
    }

    /** getblock for writing, seen from putline: `part` of the new line is already stored. */
    method Reach(tl: nat, ghost b: nat, ghost part: seq<Byte>) returns (ok: bool, bp: nat)
      requires Cached() && LinesKept()
      requires b == tl / 256 <= MAXBLOCK && oblock <= b <= oblock + 1
      requires if part == [] then 2 * tline < BLOCK * (b + 1) else Spans(blocks, 2 * tline, part)
      requires 2 * (tl - tl % 2) == 2 * tline + |part|
      modifies this`tfile, this`iblock, this`oblock, this`ichanged, this`nleft, this`blocks, ibuff, crbuf
      ensures Cached() && LinesKept()
      ensures ok <==> b < MAXBLOCK
      ensures !ok ==> oblock == old(oblock) && blocks == old(blocks)
      ensures ok ==> oblock == b && Spans(blocks, 2 * tline, part)
      ensures ok ==> bp < BLOCK && BLOCK * b + bp == 2 * tline + |part| && nleft == BLOCK - bp
    {
      HandleParts(tl, b);
      ghost var was, last := blocks, obuff[..];
      if part != [] {
        AppendKeeps(was, last, 2 * tline, part);
      }
      AppendKeepsLines(was, last);
      var buf;
      ok, buf, bp := GetBlock(tl, WRITE);
    }

    /** putline: store the text in linebuf up to its NUL or newline, and return the handle.
        Running into block 255 is the error exit, which leaves the store as it was. */
    method PutLine() returns (r: Option<nat>)
      requires Valid() && TextLength(linebuf[..]) < BLOCK
      modifies this`tfile, this`iblock, this`oblock, this`ichanged, this`nleft, this`tline, this`linebp
      modifies this`blocks, this`lines, ibuff, obuff, crbuf
      ensures Valid()
      ensures r.Some? <==> 2 * old(tline) + TextLength(linebuf[..]) < BLOCK * MAXBLOCK
      ensures r.None? ==> lines == old(lines) && tline == old(tline) && linebp == old(linebp)
      ensures r.Some? ==>
                var n := TextLength(linebuf[..]);
                && r.value == old(tline) && r.value !in old(lines)
                && lines == old(lines)[r.value := linebuf[..n]]
                && tline == r.value + Rounded(n + 1) / 2
                && linebp == if linebuf[n] == 10 then Some(n + 1) else old(linebp)
    {
      hide FileHolds, Plain, Tables, Spans, LinesKept, Cached;
      ghost var n := TextLength(linebuf[..]);
      var ok, lp := StoreText(n, linebuf[..n]);
      if !ok {
        return None;
      }
      r := Some(tline);
      Commit(lp, linebuf[..n]);
    }

    /** The text is in its blocks, or block 255 was met and nothing has changed. */
    method StoreText(ghost n: nat, ghost text: seq<Byte>) returns (ok: bool, lp: nat)
      requires Valid() && n == TextLength(linebuf[..]) < BLOCK && text == linebuf[..n]
      modifies this`tfile, this`iblock, this`oblock, this`ichanged, this`nleft, this`linebp, this`blocks
      modifies ibuff, obuff, crbuf
      ensures linebuf[..] == old(linebuf[..])
      ensures ok <==> 2 * tline + n < BLOCK * MAXBLOCK
      ensures !ok ==> Valid() && linebp == old(linebp)
      ensures ok ==>
                && Cached() && LinesKept() && 2 <= tline && tline % 2 == 0 && tline !in lines
                && lp == n + 1 && 0 !in text && 10 !in text && Spans(blocks, 2 * tline, text + [0])
                && BLOCK * oblock <= 2 * tline + n < BLOCK * (oblock + 1)
                && linebp == if linebuf[n] == 10 then Some(n + 1) else old(linebp)
    {
      hide FileHolds, Plain, Tables, Spans;
      var bp;
      lp := 0;
      ok, bp := Reach(tline, tline / 256, []);
      if ok {
        ok, lp := CopyOut(tline - tline % 256, bp, n, text);
      }
    }

    method NextSlot(tl: nat, ghost b: nat, ghost part: seq<Byte>) returns (ok: bool, bp: nat)
      requires Cached() && LinesKept()
      requires tl == 256 * b && 1 <= b == oblock + 1 && part != []
      requires Spans(blocks, 2 * tline, part) && 2 * tline + |part| == BLOCK * b
      modifies this`tfile, this`iblock, this`oblock, this`ichanged, this`nleft, this`blocks, ibuff, crbuf
      ensures Cached() && LinesKept()
      ensures ok <==> b < MAXBLOCK
      ensures !ok ==> oblock == old(oblock) && blocks == old(blocks)
      ensures ok ==> oblock == b && Spans(blocks, 2 * tline, part) && bp == 0 && nleft == BLOCK
    {
      hide FileHolds, Plain, Tables, Spans;
      assert tl / 256 == b && tl % 2 == 0;
      ok, bp := Reach(tl, b, part);
    }

    /** A newline ends the stored line; linebp keeps what follows it. */
    method EndAtNewline(bp: nat, lp: nat, ghost text: seq<Byte>)
      requires Cached() && LinesKept() && 0 <= oblock && bp < BLOCK
      requires 2 * tline + |text| == BLOCK * oblock + bp && Spans(blocks, 2 * tline, text + [10])
      modifies this`blocks, this`linebp, obuff
      ensures Cached() && LinesKept()
      ensures Spans(blocks, 2 * tline, text + [0]) && linebp == Some(lp)
    {
      hide FileHolds, Plain, Tables;
      SpanPrefix(blocks, 2 * tline, text, 10);
      StoreByte(bp, 0, text);
      linebp := Some(lp);
    }

    /** The copying loop of putline. */
    method CopyOut(start: nat, off: nat, ghost n: nat, ghost text: seq<Byte>) returns (ok: bool, lp: nat)
      requires Cached() && LinesKept() && Spans(blocks, 2 * tline, [])
      requires n == TextLength(linebuf[..]) < BLOCK && text == linebuf[..n]
      requires 0 <= oblock && start == 256 * oblock && 2 * tline == BLOCK * oblock + off
      requires off < BLOCK && nleft == BLOCK - off
      modifies this`tfile, this`iblock, this`oblock, this`ichanged, this`nleft, this`linebp, this`blocks
      modifies ibuff, obuff, crbuf
      ensures Cached() && LinesKept()
      ensures ok <==> 2 * tline + n < BLOCK * MAXBLOCK
      ensures !ok ==> BLOCK * oblock <= 2 * tline <= BLOCK * (oblock + 1) && linebp == old(linebp)
      ensures ok ==> lp == n + 1 && BLOCK * oblock <= 2 * tline + n < BLOCK * (oblock + 1)
      ensures ok ==> Spans(blocks, 2 * tline, text + [0])
      ensures ok ==> linebp == if linebuf[n] == 10 then Some(n + 1) else old(linebp)
    {
      hide Cached, Spans, LinesKept, TextLength;
      CachedFacts();
      TextLengthFacts(linebuf[..]);
      ghost var b := oblock;
      var tl, bp, nl := start, off, nleft;
      ok, lp := true, 0;
      assert text[..0] == [];
      while true
        invariant Cached() && Buffers() && LinesKept() && 0 <= oblock == b && tl == 256 * b && linebp == old(linebp)
        invariant ok && 0 <= lp <= n && Spans(blocks, 2 * tline, text[..lp])
        invariant 2 * tline + lp == BLOCK * b + bp && 0 <= bp < BLOCK && nl == BLOCK - bp
        decreases n - lp
      {
        var c := linebuf[lp];
        StoreByte(bp, c, text[..lp]);
        lp := lp + 1;
        if c == 0 {
          assert text[..n] == text;
          return;
        }
        if c == 10 {
          assert text[..n] == text;
          EndAtNewline(bp, lp, text);
          return;
        }
        assert text[..lp] == text[..lp - 1] + [c];
        bp, nl := bp + 1, nl - 1;
        if nl == 0 {
          b, tl := b + 1, tl + 256;
          ok, bp := NextSlot(tl, b, text[..lp]);
          if !ok {
            return;
          }
          nl := nleft;
        }
      }
    }

    /** The end of putline: the next line starts at the next multiple of 4. */
    method Commit(lp: nat, ghost text: seq<Byte>)
      requires Cached() && LinesKept() && 2 <= tline && tline % 2 == 0
      requires |text| < BLOCK && lp == |text| + 1 && 0 !in text && 10 !in text
      requires Spans(blocks, 2 * tline, text + [0])
      requires BLOCK * oblock <= 2 * tline + |text| < BLOCK * (oblock + 1)
      modifies this`tline, this`lines
      ensures Valid()
      ensures lines == old(lines)[old(tline) := text]
      ensures tline == old(tline) + Rounded(lp) / 2
    {
      hide FileHolds, Plain, Tables, Spans, Rounded;
      ghost var h := tline;
      NextHandle(tline, lp, oblock + 1);
      tline := tline + ((lp + 3) / 2 - (lp + 3) / 2 % 2);
      lines := lines[h := text];
    }

    /** Put a text into linebuf, as the commands of ed do before putline. */
    method Load(line: seq<Byte>)
      requires Buffers() && Storable(line)
      modifies linebuf
      ensures TextLength(linebuf[..]) == |line| && linebuf[..|line|] == line
    {
      forall i | 0 <= i < |line| {
        linebuf[i] := line[i];
      }
      linebuf[|line|] := 0;
      assert linebuf[..|line|] == line;
      TextLengthIs(linebuf[..], |line|);
    }

    /** Any run of stores and fetches answers as the abstract store does. */
    method Session(ops: seq<Op>) returns (replies: seq<Reply>)
      requires Valid() && Legal(Abs(tline, lines), ops)
      modifies this, ibuff, obuff, crbuf, linebuf
      ensures Valid()
      ensures replies == Spec(Abs(old(tline), old(lines)), ops)
      ensures Abs(tline, lines) == After(Abs(old(tline), old(lines)), ops)
    {
      hide FileHolds, Plain, Tables, Spans, LinesKept, Stored, StoredIn;
      replies := [];
      ghost var start := Abs(tline, lines);
      var i := 0;
      while i < |ops|
        invariant 0 <= i <= |ops| && Valid()
        invariant Legal(Abs(tline, lines), ops[i..])
        invariant replies + Spec(Abs(tline, lines), ops[i..]) == Spec(start, ops)
        invariant After(Abs(tline, lines), ops[i..]) == After(start, ops)
      {
        assert ops[i..][0] == ops[i] && ops[i..][1..] == ops[i + 1..];
        ghost var was := Abs(tline, lines);
        var reply := Answer(ops[i]);
        assert replies + ([reply] + Spec(Abs(tline, lines), ops[i + 1..]))
            == (replies + [reply]) + Spec(Abs(tline, lines), ops[i + 1..]);
        replies := replies + [reply];
        i := i + 1;
      }
    }

    method Answer(op: Op) returns (reply: Reply)
      requires Valid() && Legal(Abs(tline, lines), [op])
      modifies this, ibuff, obuff, crbuf, linebuf
      ensures Valid()
      ensures (Abs(tline, lines), reply) == Step(Abs(old(tline), old(lines)), op)
    {
      hide FileHolds, Plain, Tables, Spans, LinesKept, Stored, StoredIn;
      match op
      case Put(line) =>
        Load(line);
        var r := PutLine();
        reply := if r.Some? then Handle(r.value) else TooBig;
      case Get(h) =>
        ghost var line := lines[h - h % 2];
        GetLine(h);
        reply := Line(linebuf[..TextLength(linebuf[..])]);
        assert linebuf[..|line|] == (line + [0])[..|line|] == line;
    }
  }

  lemma TextLengthFacts(buf: seq<Byte>)
    ensures var n := TextLength(buf);
            n <= |buf| && (n < |buf| ==> buf[n] == 0 || buf[n] == 10) && forall i :: 0 <= i < n ==> buf[i] != 0 && buf[i] != 10
  {
  }

  lemma TextLengthIs(buf: seq<Byte>, n: nat)
    requires n < |buf| && (buf[n] == 0 || buf[n] == 10)
    requires forall i :: 0 <= i < n ==> buf[i] != 0 && buf[i] != 10
    ensures TextLength(buf) == n
  {
  }

  // ---------------------------------------------------------------- the abstract store

  ghost predicate Storable(line: seq<Byte>) {
    |line| < BLOCK && 0 !in line && 10 !in line
  }

  datatype Op = Put(line: seq<Byte>) | Get(handle: nat)

  datatype Reply = Handle(handle: int) | TooBig | Line(line: seq<Byte>)

  /** The next free handle and the lines by handle. */
  ghost function Step(st: Abs, op: Op): (r: (Abs, Reply))
    requires Legal(st, [op])
  {
    match op
    case Put(line) =>
      if 2 * st.next + |line| < BLOCK * MAXBLOCK then
        (Abs(st.next + Rounded(|line| + 1) / 2, st.lines[st.next := line]), Handle(st.next))
      else
        (st, TooBig)
    case Get(h) => (st, Line(st.lines[h - h % 2]))
  }

  datatype Abs = Abs(next: nat, lines: map<int, seq<Byte>>)

  /** Only lines that fit are stored, and only handles given out earlier are fetched. */
  ghost predicate Legal(st: Abs, ops: seq<Op>)
    decreases |ops|
  {
    ops == [] ||
    (match ops[0]
     case Put(line) =>
       && Storable(line)
       && (if 2 * st.next + |line| < BLOCK * MAXBLOCK then
             Legal(Abs(st.next + Rounded(|line| + 1) / 2, st.lines[st.next := line]), ops[1..])
           else
             Legal(st, ops[1..]))
     case Get(h) => h - h % 2 in st.lines && Legal(st, ops[1..]))
  }

  ghost function After(st: Abs, ops: seq<Op>): (r: Abs)
    requires Legal(st, ops)
    decreases |ops|
  {
    if ops == [] then st else After(Step(st, ops[0]).0, ops[1..])
  }

  ghost function Spec(st: Abs, ops: seq<Op>): (r: seq<Reply>)
    requires Legal(st, ops)
    ensures |r| == |ops|
    decreases |ops|
  {
    if ops == [] then [] else [Step(st, ops[0]).1] + Spec(Step(st, ops[0]).0, ops[1..])
  }

  /** Handles still to be given out are beyond all given out before. */
  ghost predicate Ordered(st: Abs) {
    st.next % 2 == 0 && forall h :: h in st.lines ==> h < st.next
  }

  lemma StepKeeps(st: Abs, op: Op, h: int)
    requires Ordered(st) && Legal(st, [op]) && h in st.lines
    ensures var next := Step(st, op).0; Ordered(next) && h in next.lines && next.lines[h] == st.lines[h]
  {
  }

  lemma StepOrdered(st: Abs, op: Op)
    requires Ordered(st) && Legal(st, [op])
    ensures var (next, reply) := Step(st, op);
            && Ordered(next)
            && (reply.Handle? ==> reply.handle in next.lines && op == Put(next.lines[reply.handle]))
  {
  }

  lemma LegalFirst(st: Abs, ops: seq<Op>)
    requires Legal(st, ops) && ops != []
    ensures Legal(st, [ops[0]]) && Legal(Step(st, ops[0]).0, ops[1..])
  {
  }

  /** A line stays what it was for the rest of the run. */
  lemma {:induction false} LineStays(st: Abs, ops: seq<Op>, h: int, line: seq<Byte>, j: nat, handle: nat)
    requires Ordered(st) && Legal(st, ops)
    requires h in st.lines && st.lines[h] == line
    requires j < |ops| && ops[j] == Get(handle) && handle - handle % 2 == h
    ensures Spec(st, ops)[j] == Line(line)
    decreases j
  {
    LegalFirst(st, ops);
    if j > 0 {
      StepKeeps(st, ops[0], h);
      LineStays(Step(st, ops[0]).0, ops[1..], h, line, j - 1, handle);
    }
  }

  /** In every run, fetching a handle yields the line whose storing returned that handle,
      whatever was stored or fetched in between, and with or without a mark on the handle. */
  lemma {:induction false} FetchReturnsStored(st: Abs, ops: seq<Op>, i: nat, j: nat)
    requires Ordered(st) && Legal(st, ops)
    requires i < j < |ops| && ops[i].Put? && ops[j].Get?
    requires Spec(st, ops)[i] == Handle(ops[j].handle - ops[j].handle % 2)
    ensures Spec(st, ops)[j] == Line(ops[i].line)
    decreases i
  {
    LegalFirst(st, ops);
    StepOrdered(st, ops[0]);
    hide Legal, Step;
    var (next, reply) := Step(st, ops[0]);
    if i == 0 {
      LineStays(next, ops[1..], reply.handle, ops[0].line, j - 1, ops[j].handle);
    } else {
      FetchReturnsStored(next, ops[1..], i - 1, j - 1);
    }
  }
}
