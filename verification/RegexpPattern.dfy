/**
 Patterns of System V's regexp.h (head/regexp.h) as their users see them: how they are
 written, what they match, and that compile followed by step decides exactly that.
 Covered are literals, dot, bracket sets of 7-bit characters, a leading ^, a final $, at most
 one * or \{...\} per atom, and groups \(...\) around pieces.
 */
module RegexpPattern {
  import opened Options
  import opened Bytes
  import opened Machine
  import opened RegexpCode
  import opened RegexpCompile
  import RegexpMatch

  /** A bracket set: a first character, then single characters and ranges "-c" from the
      character before, and perhaps a final dash. */
  datatype Tok = Ch(c: Byte) | To(c: Byte)

  datatype PAtom = PLit(c: Byte, quoted: bool) | PAny | PSet(neg: bool, first: Byte, toks: seq<Tok>, dash: bool)

  datatype PRep = POnce | PStar | PExact(m: Byte) | PFrom(m: Byte) | PRange(m: Byte, n: Byte)

  /** Open and Close are the ends of a group. */
  datatype Piece = Piece(atom: PAtom, rep: PRep) | Open | Close

  datatype Pattern = Pattern(circ: bool, pieces: seq<Piece>, dol: bool)

  // ---------------------------------------------------------------- well-formed patterns

  predicate SetChar(c: Byte) { 0 < c < 128 && c != NL }

  predicate TokOk(t: Tok) {
    match t
    case Ch(c) => SetChar(c) && c != CLOSESET && c != DASH
    case To(c) => 0 < c < 128 && c != CLOSESET
  }

  predicate AtomWritten(a: PAtom, eof: Byte) {
    match a
    case PLit(c, quoted) =>
      && c != 0
      && (if quoted then c == NL || (c !in [OPENPAR, CLOSEPAR, OPENBRACE, LETTERN] && !(DIGIT1 <= c <= DIGIT9))
          else c !in [eof, PERIOD, NL, ASTERISK, DOLLAR, OPENSET, BACKSLASH])
    case PAny => true
    case PSet(neg, first, toks, _) =>
      SetChar(first) && (!neg ==> first != CARET) && forall t <- toks :: TokOk(t)
  }

  predicate RepWritten(r: PRep) {
    match r
    case PExact(m) => m < 255
    case PFrom(m) => m < 255
    case PRange(m, n) => m <= n < 255
    case _ => true
  }

  predicate PieceOk(p: Piece, eof: Byte) { p.Piece? ==> AtomWritten(p.atom, eof) && RepWritten(p.rep) }

  /** The groups at a place in a pattern: the numbers of those that are open, and the next one. */
  datatype Nest = Nest(open: seq<Byte>, next: Byte)

  const NOGROUP := Nest([], 0)

  ghost predicate NestOk(n: Nest) {
    && n.next <= NBRA && (forall i :: 0 <= i < |n.open| ==> n.open[i] < n.next)
    && (forall i, j :: 0 <= i < j < |n.open| ==> n.open[i] != n.open[j])
  }

  predicate CanFollow(p: Piece, n: Nest) {
    match p
    case Open => n.next < NBRA
    case Close => n.open != []
    case _ => true
  }

  function NestAfter(p: Piece, n: Nest): Nest
    requires CanFollow(p, n)
  {
    match p
    case Open => Nest(n.open + [n.next], n.next + 1)
    case Close => n.(open := n.open[..|n.open| - 1])
    case _ => n
  }

  /** Every group that is opened is closed, and there are no more than nine. */
  predicate Nested(ps: seq<Piece>, n: Nest) {
    if ps == [] then n.open == [] else CanFollow(ps[0], n) && Nested(ps[1..], NestAfter(ps[0], n))
  }

  /** The groups before piece k. */
  function NestAt(ps: seq<Piece>, n: Nest, k: nat): Nest
    requires Nested(ps, n) && k <= |ps|
  {
    if k == 0 then n else NestAt(ps[1..], NestAfter(ps[0], n), k - 1)
  }

  /** The delimiter is none of the characters that start something, and the pattern is not
      empty and does not start with an accidental ^. */
  predicate PatternOk(p: Pattern, eof: Byte) {
    && eof !in [PERIOD, ASTERISK, DOLLAR, OPENSET, BACKSLASH, CARET]
    && (forall i :: 0 <= i < |p.pieces| ==> PieceOk(p.pieces[i], eof))
    && (p.circ || p.pieces != [] || p.dol)
    && (!p.circ && p.pieces != [] && p.pieces[0].Piece? ==> p.pieces[0].atom != PLit(CARET, false))
    && Nested(p.pieces, NOGROUP)
  }

  // ---------------------------------------------------------------- how a pattern is written

  function Digits(n: nat): (ds: seq<Byte>)
    ensures |ds| >= 1 && forall d <- ds :: IsDigit(d)
  {
    if n < 10 then [DIGIT0 + n] else Digits(n / 10) + [DIGIT0 + n % 10]
  }

  function PrintToks(toks: seq<Tok>): seq<Byte> {
    if toks == [] then []
    else (match toks[0] case Ch(c) => [c] case To(c) => [DASH, c]) + PrintToks(toks[1..])
  }

  function PrintSet(first: Byte, toks: seq<Tok>, dash: bool): seq<Byte> {
    [first] + PrintToks(toks) + (if dash then [DASH] else []) + [CLOSESET]
  }

  function PrintAtom(a: PAtom): (w: seq<Byte>)
    ensures w != []
  {
    match a
    case PLit(c, quoted) => if !quoted then [c] else [BACKSLASH, if c == NL then LETTERN else c]
    case PAny => [PERIOD]
    case PSet(neg, first, toks, dash) => [OPENSET] + (if neg then [CARET] else []) + PrintSet(first, toks, dash)
  }

  function PrintRep(r: PRep): seq<Byte> {
    match r
    case POnce => []
    case PStar => [ASTERISK]
    case PExact(m) => [BACKSLASH, OPENBRACE] + (Digits(m) + [BACKSLASH, CLOSEBRACE])
    case PFrom(m) => [BACKSLASH, OPENBRACE] + (Digits(m) + [COMMA, BACKSLASH, CLOSEBRACE])
    case PRange(m, n) => [BACKSLASH, OPENBRACE] + (Digits(m) + ([COMMA] + (Digits(n) + [BACKSLASH, CLOSEBRACE])))
  }

  function PrintPieces(ps: seq<Piece>): seq<Byte> {
    if ps == [] then []
    else
      match ps[0]
      case Piece(atom, rep) => PrintAtom(atom) + (PrintRep(rep) + PrintPieces(ps[1..]))
      case Open => [BACKSLASH, OPENPAR] + PrintPieces(ps[1..])
      case Close => [BACKSLASH, CLOSEPAR] + PrintPieces(ps[1..])
  }

  function Print(p: Pattern): seq<Byte> {
    (if p.circ then [CARET] else []) + (PrintPieces(p.pieces) + (if p.dol then [DOLLAR] else []))
  }

  // ---------------------------------------------------------------- what a pattern matches

  /** The characters of a bracket set, given the character before its tokens. */
  predicate InToks(toks: seq<Tok>, last: Byte, d: Byte) {
    toks != [] &&
    match toks[0]
    case Ch(c) => d == c || InToks(toks[1..], c, d)
    case To(c) => last <= d < c || d == c || InToks(toks[1..], c, d)
  }

  predicate InSet(first: Byte, toks: seq<Tok>, dash: bool, d: Byte) {
    d == first || InToks(toks, first, d) || (dash && d == DASH)
  }

  predicate PTakes(a: PAtom, c: Byte) {
    match a
    case PLit(d, _) => c == d
    case PAny => true
    case PSet(neg, first, toks, dash) => (c < 128 && InSet(first, toks, dash, c)) != neg
  }

  predicate Count(r: PRep, k: nat) {
    match r
    case POnce => k == 1
    case PStar => true
    case PExact(m) => k == m
    case PFrom(m) => m <= k <= m + OPEN
    case PRange(m, n) => m <= k <= n
  }

  /** A piece takes c characters from i on. */
  predicate Share(p: Piece, s: seq<Byte>, i: nat, c: nat) {
    if p.Piece? then Count(p.rep, c) && i + c <= |s| && forall m :: i <= m < i + c ==> PTakes(p.atom, s[m])
    else c == 0
  }

  /** The split cs gives each piece its share of the text from i to j. */
  ghost predicate Splits(ps: seq<Piece>, dol: bool, s: seq<Byte>, i: nat, j: nat, cs: seq<nat>)
    decreases |ps|
  {
    && |cs| == |ps|
    && if ps == [] then i == j && (dol ==> j == |s|)
       else Share(ps[0], s, i, cs[0]) && Splits(ps[1..], dol, s, i + cs[0], j, cs[1..])
  }

  /** The pieces match the text from i to j. */
  ghost predicate Matches(ps: seq<Piece>, dol: bool, s: seq<Byte>, i: nat, j: nat) {
    exists cs :: Splits(ps, dol, s, i, j, cs)
  }

  function Sum(cs: seq<nat>): nat {
    if cs == [] then 0 else cs[0] + Sum(cs[1..])
  }

  // ---------------------------------------------------------------- the program of a pattern

  /** The bit map the source builds from the tokens of a set. */
  function ToksBits(bits: seq<Byte>, lc: Byte, toks: seq<Tok>): (r: seq<Byte>)
    requires |bits| == 16 && forall t <- toks :: TokOk(t)
    ensures |r| == 16
    ensures forall d: Byte :: d < 128 ==> (IsThere(r, d) <==> IsThere(bits, d) || InToks(toks, lc, d))
    decreases |toks|
  {
    if toks == [] then bits
    else
      assert TokOk(toks[0]);
      match toks[0]
      case Ch(c) => ToksBits(PlaceAt(bits, c), c, toks[1..])
      case To(c) => ToksBits(PlaceAt(PlaceRange(bits, lc, c), c), c, toks[1..])
  }

  function SetBits(first: Byte, toks: seq<Tok>, dash: bool): (r: seq<Byte>)
    requires SetChar(first) && forall t <- toks :: TokOk(t)
    ensures |r| == 16
    ensures forall d: Byte :: d < 128 ==> (IsThere(r, d) <==> InSet(first, toks, dash, d))
  {
    var bits := ToksBits(PlaceAt(Zeros(), first), first, toks);
    if dash then PlaceAt(bits, DASH) else bits
  }

  function ToAtom(a: PAtom): (r: Atom)
    requires a.PSet? ==> SetChar(a.first) && forall t <- a.toks :: TokOk(t)
    ensures Sized(r)
  {
    match a
    case PLit(c, _) => Chr(c)
    case PAny => Dot
    case PSet(neg, first, toks, dash) =>
      var bits := SetBits(first, toks, dash);
      Cls(if neg then PlaceAt(bits, 0) else bits, neg)
  }

  lemma {:induction false} NoNulInToks(toks: seq<Tok>, last: Byte)
    requires last != 0 && forall t <- toks :: TokOk(t)
    ensures !InToks(toks, last, 0)
    decreases |toks|
  {
    if toks != [] {
      assert TokOk(toks[0]);
      NoNulInToks(toks[1..], toks[0].c);
    }
  }

  /** An atom takes the characters its notation says, and never the NUL. */
  lemma AtomMeaning(a: PAtom, eof: Byte)
    requires AtomWritten(a, eof)
    ensures AtomOk(ToAtom(a))
    ensures forall c: Byte :: c != 0 ==> (Takes(ToAtom(a), c) <==> PTakes(a, c))
  {
    if a.PSet? {
      NoNulInToks(a.toks, a.first);
    }
  }

  /** The instruction of a piece, where the groups before it are n. */
  ghost function ToIns(p: Piece, eof: Byte, n: Nest): (r: Ins)
    requires PieceOk(p, eof) && CanFollow(p, n) && NestOk(n)
    ensures InsOk(r)
  {
    match p
    case Open => Bra(n.next)
    case Close => Ket(n.open[|n.open| - 1])
    case Piece(atom, rep) =>
      AtomMeaning(atom, eof);
      var a := ToAtom(atom);
      match rep
      case POnce => One(a)
      case PStar => Many(a)
      case PExact(m) => Rng(a, m, m)
      case PFrom(m) => Rng(a, m, 255)
      case PRange(m, n) => Rng(a, m, n)
  }

  ghost predicate PiecesOk(ps: seq<Piece>, eof: Byte) {
    forall i :: 0 <= i < |ps| ==> PieceOk(ps[i], eof)
  }

  lemma NestStays(p: Piece, n: Nest)
    requires NestOk(n) && CanFollow(p, n)
    ensures NestOk(NestAfter(p, n))
  {
  }

  ghost function ToProgram(ps: seq<Piece>, dol: bool, eof: Byte, n: Nest): (r: Program)
    requires PiecesOk(ps, eof) && NestOk(n) && Nested(ps, n)
    ensures ProgramOk(r) && |r| == |ps| + (if dol then 1 else 0)
    decreases |ps|
  {
    if ps == [] then (if dol then [Dol] else [])
    else
      assert PieceOk(ps[0], eof);
      NestStays(ps[0], n);
      [ToIns(ps[0], eof, n)] + ToProgram(ps[1..], dol, eof, NestAfter(ps[0], n))
  }

  lemma ProgramParts(ps: seq<Piece>, dol: bool, eof: Byte, n: Nest)
    requires PiecesOk(ps, eof) && NestOk(n) && Nested(ps, n) && ps != []
    ensures PieceOk(ps[0], eof) && PiecesOk(ps[1..], eof) && CanFollow(ps[0], n)
    ensures var n' := NestAfter(ps[0], n);
            && NestOk(n') && Nested(ps[1..], n')
            && var p := ToProgram(ps, dol, eof, n);
               p[0] == ToIns(ps[0], eof, n) && p[1..] == ToProgram(ps[1..], dol, eof, n')
  {
    assert PieceOk(ps[0], eof);
    NestStays(ps[0], n);
  }

  /** The program of no pieces. */
  lemma EndProgram(dol: bool, eof: Byte, n: Nest)
    requires NestOk(n) && Nested([], n)
    ensures ToProgram([], dol, eof, n) == if dol then [Dol] else []
  {
  }

  /** Some choice of repetitions takes the program from i to j. */
  ghost predicate Reaches(p: Program, s: seq<Byte>, i: nat, j: nat)
    requires ProgramOk(p)
  {
    exists ks :: Follow(p, s, i, ks) == Some(j)
  }

  /** The program of a pattern means what the pattern means. */
  lemma ProgramMeaning(ps: seq<Piece>, dol: bool, eof: Byte, n: Nest, s: seq<Byte>, i: nat, j: nat)
    requires PiecesOk(ps, eof) && NestOk(n) && Nested(ps, n) && TextOk(s) && i <= |s|
    ensures Matches(ps, dol, s, i, j) <==> Reaches(ToProgram(ps, dol, eof, n), s, i, j)
  {
    hide Splits, Follow, ToProgram;
    if cs :| Splits(ps, dol, s, i, j, cs) {
      SplitFollows(ps, dol, eof, n, s, i, j, cs);
    }
    if ks :| Follow(ToProgram(ps, dol, eof, n), s, i, ks) == Some(j) {
      var cs := FollowSplits(ps, dol, eof, n, s, i, j, ks);
    }
  }

  /** What the program is told of a piece that takes c characters. */
  function Told(p: Piece, c: nat): seq<nat> { if p.Piece? && !p.rep.POnce? then [c] else [] }

  function ToldAll(ps: seq<Piece>, cs: seq<nat>): seq<nat>
    requires |cs| == |ps|
  {
    if ps == [] then [] else Told(ps[0], cs[0]) + ToldAll(ps[1..], cs[1..])
  }

  lemma TakenAlike(a: PAtom, eof: Byte, s: seq<Byte>, i: nat, k: nat)
    requires AtomWritten(a, eof) && TextOk(s)
    ensures AllTaken(ToAtom(a), s, i, k) <==> i + k <= |s| && forall m :: i <= m < i + k ==> PTakes(a, s[m])
  {
    AtomMeaning(a, eof);
    assert forall m :: 0 <= m < |s| ==> s[m] in s;
  }

  /** One instruction takes what its piece takes. */
  lemma ShareFollows(p: Piece, eof: Byte, n: Nest, rest: Program, s: seq<Byte>, i: nat, c: nat, ks: seq<nat>)
    requires PieceOk(p, eof) && NestOk(n) && CanFollow(p, n) && ProgramOk(rest) && TextOk(s)
    requires if !p.Piece? then c == 0 else p.rep.POnce? ==> c == 1
    ensures var q := [ToIns(p, eof, n)] + rest;
            && ProgramOk(q)
            && Follow(q, s, i, Told(p, c) + ks) == if Share(p, s, i, c) then Follow(rest, s, i + c, ks) else None
  {
    var q := [ToIns(p, eof, n)] + rest;
    assert q[1..] == rest;
    if p.Piece? {
      TakenAlike(p.atom, eof, s, i, c);
      if !p.rep.POnce? {
        assert ([c] + ks)[1..] == ks;
      } else {
        var none: seq<nat> := [];
        assert none + ks == ks;
      }
    } else {
      var none: seq<nat> := [];
      assert none + ks == ks;
    }
  }

  lemma {:induction false} SplitFollows(ps: seq<Piece>, dol: bool, eof: Byte, n: Nest, s: seq<Byte>, i: nat, j: nat, cs: seq<nat>)
    requires PiecesOk(ps, eof) && NestOk(n) && Nested(ps, n) && TextOk(s) && i <= |s| && Splits(ps, dol, s, i, j, cs)
    ensures Follow(ToProgram(ps, dol, eof, n), s, i, ToldAll(ps, cs)) == Some(j)
    decreases |ps|
  {
    if ps == [] {
      EndProgram(dol, eof, n);
      EndFollows(dol, s, i, []);
    } else {
      ProgramParts(ps, dol, eof, n);
      hide ToProgram, Follow, Told, NestAfter, CanFollow, Nested;
      var p, n' := ToProgram(ps, dol, eof, n), NestAfter(ps[0], n);
      SplitFollows(ps[1..], dol, eof, n', s, i + cs[0], j, cs[1..]);
      ShareFollows(ps[0], eof, n, p[1..], s, i, cs[0], ToldAll(ps[1..], cs[1..]));
      assert p == [p[0]] + p[1..];
    }
  }

  lemma EndFollows(dol: bool, s: seq<Byte>, i: nat, ks: seq<nat>)
    ensures Follow(if dol then [Dol] else [], s, i, ks) == if ks == [] && (dol ==> i == |s|) then Some(i) else None
  {
    if dol {
      var p: Program := [Dol];
      assert p[1..] == [];
      assert Follow([], s, i, ks) == if ks == [] then Some(i) else None;
    }
  }

  /** The split that the counts of a program make. */
  lemma {:induction false} FollowSplits(ps: seq<Piece>, dol: bool, eof: Byte, n: Nest, s: seq<Byte>, i: nat, j: nat, ks: seq<nat>)
    returns (cs: seq<nat>)
    requires PiecesOk(ps, eof) && NestOk(n) && Nested(ps, n) && TextOk(s) && i <= |s|
    requires Follow(ToProgram(ps, dol, eof, n), s, i, ks) == Some(j)
    ensures |cs| == |ps| && Splits(ps, dol, s, i, j, cs) && ToldAll(ps, cs) == ks
    decreases |ps|
  {
    if ps == [] {
      EndProgram(dol, eof, n);
      EndFollows(dol, s, i, ks);
      cs := [];
    } else {
      ProgramParts(ps, dol, eof, n);
      var p, n' := ToProgram(ps, dol, eof, n), NestAfter(ps[0], n);
      hide ToProgram, Follow, NestAfter, CanFollow, Nested, Splits, ToldAll, Share, Told;
      assert p == [p[0]] + p[1..];
      var c, rest := FirstShare(ps[0], eof, n, p[1..], s, i, j, ks);
      var tail := FollowSplits(ps[1..], dol, eof, n', s, i + c, j, rest);
      cs := [c] + tail;
      SplitsMore(ps, dol, s, i, j, c, tail);
    }
  }

  lemma FirstShare(p: Piece, eof: Byte, n: Nest, rest: Program, s: seq<Byte>, i: nat, j: nat, ks: seq<nat>) returns (c: nat, more: seq<nat>)
    requires PieceOk(p, eof) && NestOk(n) && CanFollow(p, n) && ProgramOk([ToIns(p, eof, n)] + rest) && ProgramOk(rest) && TextOk(s) && i <= |s|
    requires Follow([ToIns(p, eof, n)] + rest, s, i, ks) == Some(j)
    ensures ks == Told(p, c) + more && Share(p, s, i, c) && i + c <= |s| && Follow(rest, s, i + c, more) == Some(j)
  {
    CountThere([ToIns(p, eof, n)] + rest, s, i, ks);
    hide Follow;
    var told := p.Piece? && !p.rep.POnce?;
    c := if told then ks[0] else if p.Piece? then 1 else 0;
    more := if told then ks[1..] else ks;
    assert ks == Told(p, c) + more;
    ShareFollows(p, eof, n, rest, s, i, c, more);
  }

  lemma SplitsMore(ps: seq<Piece>, dol: bool, s: seq<Byte>, i: nat, j: nat, c: nat, tail: seq<nat>)
    requires ps != [] && |tail| == |ps| - 1 && Share(ps[0], s, i, c) && Splits(ps[1..], dol, s, i + c, j, tail)
    ensures Splits(ps, dol, s, i, j, [c] + tail) && ToldAll(ps, [c] + tail) == Told(ps[0], c) + ToldAll(ps[1..], tail)
  {
    assert ([c] + tail)[1..] == tail;
  }

  /** A repeated instruction needs a count. */
  lemma CountThere(p: Program, s: seq<Byte>, i: nat, ks: seq<nat>)
    requires ProgramOk(p) && p != [] && Follow(p, s, i, ks).Some?
    ensures Repeats(p[0]) ==> ks != []
  {
    assert InsOk(p[0]);
  }

  // ---------------------------------------------------------------- groups of a pattern

  lemma SplitsFirst(ps: seq<Piece>, dol: bool, s: seq<Byte>, i: nat, j: nat, cs: seq<nat>)
    requires Splits(ps, dol, s, i, j, cs) && i <= |s| && ps != []
    ensures |cs| == |ps| && Share(ps[0], s, i, cs[0]) && i + cs[0] <= |s| && Splits(ps[1..], dol, s, i + cs[0], j, cs[1..])
    ensures ToldAll(ps, cs) == Told(ps[0], cs[0]) + ToldAll(ps[1..], cs[1..])
  {
  }

  lemma PassesStart(p: Program, s: seq<Byte>, i: nat, ks: seq<nat>)
    requires ProgramOk(p)
    ensures Passes(p, s, i, ks, 0, i)
  {
    assert p[..0] == [] && ks[..0] == [];
  }

  /** Before piece k the program has come as far as the shares of the pieces before. */
  lemma {:induction false} PieceStarts(ps: seq<Piece>, dol: bool, eof: Byte, n: Nest, s: seq<Byte>, i: nat, j: nat, cs: seq<nat>, k: nat)
    requires PiecesOk(ps, eof) && NestOk(n) && Nested(ps, n) && TextOk(s) && i <= |s| && |cs| == |ps| && Splits(ps, dol, s, i, j, cs) && k <= |ps|
    ensures Passes(ToProgram(ps, dol, eof, n), s, i, ToldAll(ps, cs), k, i + Sum(cs[..k]))
    decreases k
  {
    hide Splits, ToldAll, Told, Share, Follow, Repetitions, Passes;
    var p := ToProgram(ps, dol, eof, n);
    if k == 0 {
      PassesStart(p, s, i, ToldAll(ps, cs));
      assert cs[..0] == [];
    } else {
      ProgramParts(ps, dol, eof, n);
      SplitsFirst(ps, dol, s, i, j, cs);
      var n' := NestAfter(ps[0], n);
      hide ToProgram, NestAfter, CanFollow, Nested, Sum;
      PieceStarts(ps[1..], dol, eof, n', s, i + cs[0], j, cs[1..], k - 1);
      SumFirst(cs, k);
      PassesOne(ps[0], eof, n, p[1..], s, i, cs[0], ToldAll(ps[1..], cs[1..]), k - 1, i + Sum(cs[..k]));
      assert p == [p[0]] + p[1..];
    }
  }

  lemma SumFirst(cs: seq<nat>, k: nat)
    requires 0 < k <= |cs|
    ensures Sum(cs[..k]) == cs[0] + Sum(cs[1..][..k - 1])
  {
    assert cs[..k] == [cs[0]] + cs[1..][..k - 1];
  }

  lemma PassesOne(q: Piece, eof: Byte, n: Nest, rest: Program, s: seq<Byte>, i: nat, c: nat, ks: seq<nat>, k: nat, at: nat)
    requires PieceOk(q, eof) && NestOk(n) && CanFollow(q, n) && ProgramOk(rest) && TextOk(s) && Share(q, s, i, c)
    requires k <= |rest| && Passes(rest, s, i + c, ks, k, at)
    ensures ProgramOk([ToIns(q, eof, n)] + rest) && Passes([ToIns(q, eof, n)] + rest, s, i, Told(q, c) + ks, k + 1, at)
  {
    var ins := ToIns(q, eof, n);
    var p := [ins] + rest;
    var m := Repetitions(rest[..k]);
    assert p[..k + 1] == [ins] + rest[..k];
    assert p[..k + 1][1..] == rest[..k];
    assert (Told(q, c) + ks)[..|Told(q, c)| + m] == Told(q, c) + ks[..m];
    assert q.Piece? && q.rep.POnce? ==> c == 1;
    ShareFollows(q, eof, n, rest[..k], s, i, c, ks[..m]);
  }

  /** The instruction of piece k. */
  lemma {:induction false} InsAt(ps: seq<Piece>, dol: bool, eof: Byte, n: Nest, k: nat)
    requires PiecesOk(ps, eof) && NestOk(n) && Nested(ps, n) && k < |ps|
    ensures var m := NestAt(ps, n, k);
            NestOk(m) && CanFollow(ps[k], m) && PieceOk(ps[k], eof) && ToProgram(ps, dol, eof, n)[k] == ToIns(ps[k], eof, m)
    decreases k
  {
    ProgramParts(ps, dol, eof, n);
    if k > 0 {
      hide ToProgram;
      InsAt(ps[1..], dol, eof, NestAfter(ps[0], n), k - 1);
      assert ToProgram(ps, dol, eof, n)[k] == ToProgram(ps, dol, eof, n)[1..][k - 1];
    }
  }

  /** The numbers of the groups still to come. */
  lemma {:induction false} LaterGroups(ps: seq<Piece>, dol: bool, eof: Byte, n: Nest, b: Byte)
    requires PiecesOk(ps, eof) && NestOk(n) && Nested(ps, n)
    ensures Bra(b) in ToProgram(ps, dol, eof, n) ==> b >= n.next
    ensures Ket(b) in ToProgram(ps, dol, eof, n) ==> b in n.open || b >= n.next
    decreases |ps|
  {
    if ps != [] {
      ProgramParts(ps, dol, eof, n);
      var p := ToProgram(ps, dol, eof, n);
      hide ToProgram;
      assert p == [p[0]] + p[1..];
      LaterGroups(ps[1..], dol, eof, NestAfter(ps[0], n), b);
    }
  }

  /** Every group is opened and closed once. */
  lemma {:induction false} GroupOnce(ps: seq<Piece>, dol: bool, eof: Byte, n: Nest, k: nat)
    requires PiecesOk(ps, eof) && NestOk(n) && Nested(ps, n) && k < |ps| && !ps[k].Piece?
    ensures Final(ToProgram(ps, dol, eof, n), k)
    decreases k
  {
    var p := ToProgram(ps, dol, eof, n);
    ProgramParts(ps, dol, eof, n);
    var n', rest := NestAfter(ps[0], n), p[1..];
    if k == 0 {
      LaterGroups(ps[1..], dol, eof, n', p[0].n);
      hide ToProgram;
      assert p[0] == if ps[0].Open? then Bra(p[0].n) else Ket(p[0].n);
      assert ps[0].Close? ==> p[0].n !in n'.open;
      assert p[0] !in rest;
      assert forall m :: 0 < m < |p| ==> p[m] == rest[m - 1];
    } else {
      GroupOnce(ps[1..], dol, eof, n', k - 1);
      hide ToProgram;
      assert forall m :: 0 < m < |p| ==> p[m] == rest[m - 1];
    }
  }

  /** Where the groups of a match begin and end, for the split cs of the text. */
  ghost predicate GroupsSplit(ps: seq<Piece>, i: nat, cs: seq<nat>, bras: map<int, nat>, braes: map<int, nat>)
    requires Nested(ps, NOGROUP) && |cs| == |ps|
  {
    forall k :: 0 <= k < |ps| ==> GroupAt(ps[k], NestAt(ps, NOGROUP, k), i + Sum(cs[..k]), bras, braes)
  }

  ghost predicate GroupAt(p: Piece, n: Nest, at: nat, bras: map<int, nat>, braes: map<int, nat>) {
    && (p.Open? ==> n.next in bras && bras[n.next] == at)
    && (p.Close? ==> n.open != [] && var b := n.open[|n.open| - 1]; b in braes && braes[b] == at)
  }

  lemma GroupsMeaning(ps: seq<Piece>, dol: bool, eof: Byte, s: seq<Byte>, i: nat, j: nat, cs: seq<nat>, g: Groups)
    requires PiecesOk(ps, eof) && Nested(ps, NOGROUP) && TextOk(s) && i <= |s| && |cs| == |ps| && Splits(ps, dol, s, i, j, cs)
    requires Recorded(ToProgram(ps, dol, eof, NOGROUP), s, i, ToldAll(ps, cs), g)
    ensures GroupsSplit(ps, i, cs, g.bras, g.braes)
  {
    hide ToProgram, Splits, Nested, NestAt, Recorded, Sum, ToldAll, GroupAt;
    forall k | 0 <= k < |ps|
      ensures GroupAt(ps[k], NestAt(ps, NOGROUP, k), i + Sum(cs[..k]), g.bras, g.braes)
    {
      GroupMeaning(ps, dol, eof, s, i, j, cs, g, k);
    }
  }

  lemma GroupMeaning(ps: seq<Piece>, dol: bool, eof: Byte, s: seq<Byte>, i: nat, j: nat, cs: seq<nat>, g: Groups, k: nat)
    requires PiecesOk(ps, eof) && Nested(ps, NOGROUP) && TextOk(s) && i <= |s| && |cs| == |ps| && Splits(ps, dol, s, i, j, cs)
    requires Recorded(ToProgram(ps, dol, eof, NOGROUP), s, i, ToldAll(ps, cs), g) && k < |ps|
    ensures GroupAt(ps[k], NestAt(ps, NOGROUP, k), i + Sum(cs[..k]), g.bras, g.braes)
  {
    hide ToProgram, Follow, Splits, Nested, NestAt, Sum, ToldAll;
    if !ps[k].Piece? {
      InsAt(ps, dol, eof, NOGROUP, k);
      GroupOnce(ps, dol, eof, NOGROUP, k);
      PieceStarts(ps, dol, eof, NOGROUP, s, i, j, cs, k);
      assert RecordedAt(ToProgram(ps, dol, eof, NOGROUP), s, i, ToldAll(ps, cs), g, k);
    }
  }

  // ---------------------------------------------------------------- compiling a pattern

  lemma NumOfDigits(n: nat, stop: Byte, rest: seq<Byte>)
    requires stop == BACKSLASH || stop == COMMA
    ensures Number(Digits(n) + ([stop] + rest)) == if Wrap(n) < 255 then NumDone(Wrap(n), stop, rest) else NumFail(Error(11))
  {
    hide Wrap, Number, NumTail, Digits;
    var tail := [stop] + rest;
    DigitsValue(n, tail);
    NumStop(Wrap(n), stop, rest);
    NumberIs(Digits(n), tail);
  }

  lemma NumStop(n: Int32, stop: Byte, rest: seq<Byte>)
    requires stop == BACKSLASH || stop == COMMA
    ensures NumTail(n, [stop] + rest) == NumDone(n, stop, rest)
  {
    assert ([stop] + rest)[1..] == rest;
  }

  lemma NumberIs(ds: seq<Byte>, tail: seq<Byte>)
    requires ds != [] && IsDigit(ds[0])
    ensures var r := NumTail(ds[0] - DIGIT0, ds[1..] + tail);
            Number(ds + tail) == if r.NumDone? && r.n >= 255 then NumFail(Error(11)) else r
  {
    hide NumTail;
    assert (ds + tail)[0] == ds[0] && (ds + tail)[1..] == ds[1..] + tail;
  }

  lemma DigitStep(q: nat, d: nat, tail: seq<Byte>)
    requires d < 10
    ensures NumTail(Wrap(q), [DIGIT0 + d] + tail) == NumTail(Wrap(10 * q + d), tail)
  {
    hide Wrap;
    var next: seq<Byte> := [DIGIT0 + d] + tail;
    assert next[1..] == tail;
    assert Wrap(Wrap(q) * 10 + d) == Wrap(10 * q + d) by { WrapStep(q, d); }
  }

  lemma {:induction false} DigitsValue(n: nat, tail: seq<Byte>)
    ensures IsDigit(Digits(n)[0])
    ensures NumTail(Digits(n)[0] - DIGIT0, Digits(n)[1..] + tail) == NumTail(Wrap(n), tail)
  {
    hide Wrap, NumTail;
    if n < 10 {
      assert Digits(n)[1..] + tail == tail;
    } else {
      var q, d := n / 10, n % 10;
      var next: seq<Byte> := [DIGIT0 + d] + tail;
      DigitsValue(q, next);
      assert Digits(n)[1..] + tail == Digits(q)[1..] + next;
      assert n == 10 * q + d;
      DigitStep(q, d, tail);
    }
  }

  /** A count of 2^32 + 1 is read as 1. */
  lemma LargeCount(rest: seq<Byte>)
    ensures Number(Digits(4294967297) + ([BACKSLASH] + rest)) == NumDone(1, BACKSLASH, rest)
  {
    hide Digits, Number;
    NumOfDigits(4294967297, BACKSLASH, rest);
  }

  /** The bounds of a repetition are read back. */
  function Bounds(r: PRep): (Byte, Byte)
    requires r.PExact? || r.PFrom? || r.PRange?
  {
    match r
    case PExact(m) => (m, m)
    case PFrom(m) => (m, 255)
    case PRange(m, n) => (m, n)
  }

  lemma RangeRead(r: PRep, rest: seq<Byte>)
    requires RepWritten(r) && (r.PExact? || r.PFrom? || r.PRange?)
    ensures RangeBounds((PrintRep(r) + rest)[2..]) == RangeDone(Bounds(r).0, Bounds(r).1, rest)
  {
    match r
    case PExact(m) => ExactRead(m, rest);
    case PFrom(m) => FromRead(m, rest);
    case PRange(m, n) => BothRead(m, n, rest);
  }

  lemma ExactRead(m: Byte, rest: seq<Byte>)
    requires m < 255
    ensures RangeBounds((PrintRep(PExact(m)) + rest)[2..]) == RangeDone(m, m, rest)
  {
    hide Digits, Number;
    var tail: seq<Byte> := [CLOSEBRACE] + rest;
    assert (PrintRep(PExact(m)) + rest)[2..] == Digits(m) + ([BACKSLASH] + tail);
    NumOfDigits(m, BACKSLASH, tail);
    assert tail[1..] == rest;
  }

  lemma FromRead(m: Byte, rest: seq<Byte>)
    requires m < 255
    ensures RangeBounds((PrintRep(PFrom(m)) + rest)[2..]) == RangeDone(m, 255, rest)
  {
    hide Digits, Number;
    var tail: seq<Byte> := [CLOSEBRACE] + rest;
    var escape: seq<Byte> := [BACKSLASH] + tail;
    assert (PrintRep(PFrom(m)) + rest)[2..] == Digits(m) + ([COMMA] + escape);
    NumOfDigits(m, COMMA, escape);
    assert escape[1..] == tail && tail[1..] == rest;
  }

  lemma Regroup(open: seq<Byte>, x: seq<Byte>, y: seq<Byte>, b: Byte, c: Byte, d: Byte, rest: seq<Byte>)
    requires |open| == 2
    ensures (open + (x + ([b] + (y + [c, d]))) + rest)[2..] == x + ([b] + (y + ([c] + ([d] + rest))))
  {
  }

  lemma PrintBoth(m: Byte, n: Byte, rest: seq<Byte>)
    ensures (PrintRep(PRange(m, n)) + rest)[2..]
         == Digits(m) + ([COMMA] + (Digits(n) + ([BACKSLASH] + ([CLOSEBRACE] + rest))))
  {
    hide Digits;
    Regroup([BACKSLASH, OPENBRACE], Digits(m), Digits(n), COMMA, BACKSLASH, CLOSEBRACE, rest);
  }

  lemma BothRead(m: Byte, n: Byte, rest: seq<Byte>)
    requires m <= n < 255
    ensures RangeBounds((PrintRep(PRange(m, n)) + rest)[2..]) == RangeDone(m, n, rest)
  {
    hide Digits, Number;
    var tail: seq<Byte> := [CLOSEBRACE] + rest;
    var second: seq<Byte> := Digits(n) + ([BACKSLASH] + tail);
    PrintBoth(m, n, rest);
    NumOfDigits(m, COMMA, second);
    NumOfDigits(n, BACKSLASH, tail);
    FirstDigit(n, [BACKSLASH] + tail);
    assert tail[1..] == rest;
  }

  lemma FirstDigit(n: nat, tail: seq<Byte>)
    ensures IsDigit((Digits(n) + tail)[0])
  {
    assert Digits(n)[0] in Digits(n);
  }

  /** The bracket loop builds the map of the set and stops after its ]. */
  lemma {:induction false} ToksRead(toks: seq<Tok>, dash: bool, rest: seq<Byte>, bits: seq<Byte>, lc: Byte)
    requires |bits| == 16 && lc != 0 && forall t <- toks :: TokOk(t)
    ensures var b := ToksBits(bits, lc, toks);
            SetNext(PrintToks(toks) + ((if dash then [DASH] else []) + ([CLOSESET] + rest)), bits, lc)
            == SetDone(if dash then PlaceAt(b, DASH) else b, rest)
    decreases |toks|
  {
    hide PlaceAt, PlaceRange;
    var end: seq<Byte> := (if dash then [DASH] else []) + ([CLOSESET] + rest);
    var inp := PrintToks(toks) + end;
    if toks == [] {
      assert inp == end;
      SetEndRead(dash, rest, bits, lc);
    } else {
      assert TokOk(toks[0]);
      var tail := PrintToks(toks[1..]) + end;
      match toks[0]
      case Ch(c) =>
        assert inp == [c] + tail && inp[1..] == tail;
        ToksRead(toks[1..], dash, rest, PlaceAt(bits, c), c);
      case To(c) =>
        assert inp == [DASH, c] + tail && inp[1..] == [c] + tail && inp[1..][1..] == tail;
        ToksRead(toks[1..], dash, rest, PlaceAt(PlaceRange(bits, lc, c), c), c);
    }
  }

  lemma SetEndRead(dash: bool, rest: seq<Byte>, bits: seq<Byte>, lc: Byte)
    requires |bits| == 16 && lc != 0
    ensures SetNext((if dash then [DASH] else []) + ([CLOSESET] + rest), bits, lc)
         == SetDone(if dash then PlaceAt(bits, DASH) else bits, rest)
  {
    hide PlaceAt, PlaceRange;
    var end: seq<Byte> := (if dash then [DASH] else []) + ([CLOSESET] + rest);
    if dash {
      assert end[1..] == [CLOSESET] + rest && end[1..][1..] == rest;
    } else {
      assert end == [CLOSESET] + rest && end[1..] == rest;
    }
  }

  lemma SetRead(first: Byte, toks: seq<Tok>, dash: bool, rest: seq<Byte>)
    requires SetChar(first) && forall t <- toks :: TokOk(t)
    ensures var body := PrintSet(first, toks, dash) + rest;
            && body != []
            && SetLoop(body[0], body[1..], Zeros(), 0) == SetDone(SetBits(first, toks, dash), rest)
  {
    var body := PrintSet(first, toks, dash) + rest;
    var end: seq<Byte> := (if dash then [DASH] else []) + ([CLOSESET] + rest);
    assert body == [first] + (PrintToks(toks) + end) && body[1..] == PrintToks(toks) + end;
    ToksRead(toks, dash, rest, PlaceAt(Zeros(), first), first);
  }

  /** The code of an atom that is not repeated. */
  function AtomCode(a: PAtom): seq<Byte>
    requires a.PSet? ==> SetChar(a.first) && forall t <- a.toks :: TokOk(t)
  {
    [Op(ToAtom(a))] + Operand(ToAtom(a))
  }

  predicate EofOk(eof: Byte) {
    eof !in [PERIOD, ASTERISK, DOLLAR, OPENSET, BACKSLASH]
  }

  /** One turn of the compiler reads an atom, unless the buffer is too small. */
  lemma AtomStep(a: PAtom, rest: seq<Byte>, w: Work, eof: Byte, sed: bool, cap: nat, circf: bool)
    requires AtomWritten(a, eof) && EofOk(eof) && WorkOk(w)
    ensures var t := StepLoop(PrintAtom(a) + rest, w, eof, sed, cap, circf);
            var w' := w.(code := w.code + AtomCode(a), lastep := Some(|w.code|));
            && (t == Go(w', rest) || t == Stop(Error(50)))
            && (|w.code| + 17 < cap ==> t == Go(w', rest))
  {
    match a
    case PLit(c, quoted) =>
      LitStep(c, quoted, rest, w, eof, sed, cap, circf);
      hide StepLoop;
    case PAny =>
      AnyStep(rest, w, eof, sed, cap, circf);
      hide StepLoop;
    case PSet(neg, first, toks, dash) =>
      SetStep(neg, first, toks, dash, rest, w, cap);
      OpensSet(a, rest, w, eof, sed, cap, circf);
      hide StepLoop, SetCase, AtomCode, PrintAtom, PrintSet;
  }

  lemma AnyStep(rest: seq<Byte>, w: Work, eof: Byte, sed: bool, cap: nat, circf: bool)
    requires EofOk(eof) && WorkOk(w)
    ensures StepLoop(PrintAtom(PAny) + rest, w, eof, sed, cap, circf)
         == if |w.code| >= cap then Stop(Error(50))
            else Go(w.(code := w.code + [CDOT], lastep := Some(|w.code|)), rest)
  {
    var inp := PrintAtom(PAny) + rest;
    assert inp == [PERIOD] + rest && inp[1..] == rest;
  }

  lemma OpensSet(a: PAtom, rest: seq<Byte>, w: Work, eof: Byte, sed: bool, cap: nat, circf: bool)
    requires EofOk(eof) && WorkOk(w) && a.PSet?
    ensures var inp: seq<Byte> := (if a.neg then [CARET] else []) + (PrintSet(a.first, a.toks, a.dash) + rest);
            StepLoop(PrintAtom(a) + rest, w, eof, sed, cap, circf)
            == if |w.code| >= cap then Stop(Error(50)) else SetCase(inp, w, cap)
  {
    hide SetCase, PrintSet;
    var inp: seq<Byte> := (if a.neg then [CARET] else []) + (PrintSet(a.first, a.toks, a.dash) + rest);
    assert PrintAtom(a) + rest == [OPENSET] + inp;
    assert ([OPENSET] + inp)[1..] == inp;
  }

  lemma LitStep(c: Byte, quoted: bool, rest: seq<Byte>, w: Work, eof: Byte, sed: bool, cap: nat, circf: bool)
    requires AtomWritten(PLit(c, quoted), eof) && EofOk(eof) && WorkOk(w)
    ensures StepLoop(PrintAtom(PLit(c, quoted)) + rest, w, eof, sed, cap, circf)
         == if |w.code| >= cap then Stop(Error(50)) else Go(DefChar(w, c), rest)
  {
    var inp := PrintAtom(PLit(c, quoted)) + rest;
    hide SetCase, RangeBounds;
    if quoted {
      var d: Byte := if c == NL then LETTERN else c;
      assert inp == [BACKSLASH] + ([d] + rest) && inp[1..] == [d] + rest && inp[1..][1..] == rest;
    } else {
      assert inp == [c] + rest && inp[1..] == rest;
    }
  }

  lemma SetStep(neg: bool, first: Byte, toks: seq<Tok>, dash: bool, rest: seq<Byte>, w: Work, cap: nat)
    requires AtomWritten(PSet(neg, first, toks, dash), 0)
    ensures var t := SetCase((if neg then [CARET] else []) + (PrintSet(first, toks, dash) + rest), w, cap);
            t == if |w.code| + 17 >= cap then Stop(Error(50))
                 else Go(w.(code := w.code + AtomCode(PSet(neg, first, toks, dash)), lastep := Some(|w.code|)), rest)
  {
    var body := PrintSet(first, toks, dash) + rest;
    SetRead(first, toks, dash, rest);
    assert body[0] == first;
    hide SetLoop, SetBits, PrintSet, Zeros, SetCase, PlaceAt;
    SetCaseOf(neg, body, SetBits(first, toks, dash), rest, w, cap);
  }

  lemma SetCaseOf(neg: bool, body: seq<Byte>, bits: seq<Byte>, rest: seq<Byte>, w: Work, cap: nat)
    requires body != [] && (!neg ==> body[0] != CARET) && |bits| == 16
    requires SetLoop(body[0], body[1..], Zeros(), 0) == SetDone(bits, rest)
    ensures var a := Cls(if neg then PlaceAt(bits, 0) else bits, neg);
            SetCase((if neg then [CARET] else []) + body, w, cap)
            == if |w.code| + 17 >= cap then Stop(Error(50))
               else Go(w.(code := w.code + ([Op(a)] + Operand(a)), lastep := Some(|w.code|)), rest)
  {
    hide SetLoop, Zeros, PlaceAt;
    var inp: seq<Byte> := (if neg then [CARET] else []) + body;
    if neg {
      assert inp[1..] == body;
    } else {
      assert inp == body;
    }
  }

  lemma OrAtEnd(code: seq<Byte>, a: Atom, q: Byte)
    requires q == STAR || q == RNGE
    ensures OrAt(code + ([Op(a)] + Operand(a)), |code|, q) == code + ([Op(a) + q] + Operand(a))
  {
  }

  /** The next turn reads a repetition and patches the atom before it. */
  lemma RepStep(p: Piece, rest: seq<Byte>, w: Work, eof: Byte, sed: bool, cap: nat, circf: bool)
    requires p.Piece? && PieceOk(p, eof) && EofOk(eof) && !p.rep.POnce?
    ensures var w1 := w.(code := w.code + AtomCode(p.atom), lastep := Some(|w.code|));
            var t := StepLoop(PrintRep(p.rep) + rest, w1, eof, sed, cap, circf);
            var w' := w.(code := w.code + EncodeIns(ToIns(p, eof, NOGROUP)), lastep := Some(|w.code|));
            t == if |w1.code| >= cap then Stop(Error(50)) else Go(w', rest)
  {
    var a := ToAtom(p.atom);
    hide ToAtom, Operand, Digits, StepLoop, PrintRep;
    if p.rep.PStar? {
      StarStep(w, a, rest, eof, sed, cap, circf);
    } else {
      RangeRead(p.rep, rest);
      var (lo, hi) := Bounds(p.rep);
      RepStart(p.rep, rest);
      RangeStep(w, a, PrintRep(p.rep) + rest, lo, hi, rest, eof, sed, cap, circf);
    }
  }

  lemma RepStart(r: PRep, rest: seq<Byte>)
    requires r.PExact? || r.PFrom? || r.PRange?
    ensures var inp := PrintRep(r) + rest; |inp| >= 2 && inp[0] == BACKSLASH && inp[1] == OPENBRACE
  {
    hide Digits;
  }

  lemma StarStep(w: Work, a: Atom, rest: seq<Byte>, eof: Byte, sed: bool, cap: nat, circf: bool)
    requires EofOk(eof)
    ensures var w1 := w.(code := w.code + ([Op(a)] + Operand(a)), lastep := Some(|w.code|));
            StepLoop(PrintRep(PStar) + rest, w1, eof, sed, cap, circf)
            == if |w1.code| >= cap then Stop(Error(50)) else Go(w1.(code := w.code + EncodeIns(Many(a))), rest)
  {
    var inp := PrintRep(PStar) + rest;
    hide Operand;
    assert inp == [ASTERISK] + rest && inp[1..] == rest;
    OrAtEnd(w.code, a, STAR);
  }

  lemma RangeStep(w: Work, a: Atom, inp: seq<Byte>, lo: Byte, hi: Byte, rest: seq<Byte>,
                  eof: Byte, sed: bool, cap: nat, circf: bool)
    requires EofOk(eof) && |inp| >= 2 && inp[0] == BACKSLASH && inp[1] == OPENBRACE
    requires RangeBounds(inp[2..]) == RangeDone(lo, hi, rest)
    ensures var w1 := w.(code := w.code + ([Op(a)] + Operand(a)), lastep := Some(|w.code|));
            StepLoop(inp, w1, eof, sed, cap, circf)
            == if |w1.code| >= cap then Stop(Error(50)) else Go(w1.(code := w.code + EncodeIns(Rng(a, lo, hi))), rest)
  {
    hide Operand, RangeBounds;
    assert inp[1..][0] == OPENBRACE && inp[1..][1..] == inp[2..];
    OrAtEnd(w.code, a, RNGE);
    assert w.code + ([Op(a) + RNGE] + Operand(a)) + [lo, hi] == w.code + ([Op(a) + RNGE] + Operand(a) + [lo, hi]);
  }

  /** What is still to be read: pieces, perhaps a $, the delimiter, and what follows it. */
  function Remaining(ps: seq<Piece>, dol: bool, eof: Byte, more: seq<Byte>): seq<Byte> {
    PrintPieces(ps) + ((if dol then [DOLLAR] else []) + ([eof] + more))
  }

  ghost predicate Expected(out: Outcome, code: seq<Byte>, cap: nat, circf: bool) {
    && (out == Compiled(code, circf) || out == Error(50))
    && (|code| + 17 <= cap ==> out == Compiled(code, circf))
  }

  lemma EndCompiles(dol: bool, eof: Byte, more: seq<Byte>, w: Work, sed: bool, cap: nat, circf: bool)
    requires EofOk(eof) && WorkOk(w) && w.bracket == []
    ensures Expected(CompileLoop(Remaining([], dol, eof, more), w, eof, sed, cap, circf),
                     w.code + Encode(if dol then [Dol] else []), cap, circf)
  {
    var inp := Remaining([], dol, eof, more);
    hide SetCase, Escape;
    if dol {
      var w1 := w.(code := w.code + [CDOL], lastep := Some(|w.code|));
      assert inp == [DOLLAR] + ([eof] + more) && inp[1..] == [eof] + more;
      assert StepLoop(inp, w, eof, sed, cap, circf)
          == if |w.code| >= cap then Stop(Error(50)) else Go(w1, [eof] + more);
      EofStep(eof, more, w1, sed, cap, circf);
      var p: Program := [Dol];
      assert p[1..] == [];
      assert Encode(p) == [CDOL] + [CCEOF];
      assert w1.code + [CCEOF] == w.code + ([CDOL] + [CCEOF]);
    } else {
      assert inp == [eof] + more;
      EofStep(eof, more, w, sed, cap, circf);
    }
  }

  lemma EofStep(eof: Byte, more: seq<Byte>, w: Work, sed: bool, cap: nat, circf: bool)
    requires WorkOk(w) && w.bracket == []
    ensures CompileLoop([eof] + more, w, eof, sed, cap, circf)
         == if |w.code| >= cap then Error(50) else Compiled(w.code + [CCEOF], circf)
  {
  }

  /** The work of the compiler once a piece is read. */
  ghost function WorkAfter(p: Piece, eof: Byte, n: Nest, w: Work): Work
    requires PieceOk(p, eof) && CanFollow(p, n) && NestOk(n)
  {
    var n' := NestAfter(p, n);
    Work(w.code + EncodeIns(ToIns(p, eof, n)), Some(|w.code|), n'.open, if p.Close? then w.closed + 1 else w.closed, n'.next)
  }

  /** One or two turns of the compiler read a piece, unless the buffer is too small. */
  lemma PieceRead(p: Piece, eof: Byte, n: Nest, rest: seq<Byte>, w: Work, sed: bool, cap: nat, circf: bool)
    requires PieceOk(p, eof) && NestOk(n) && CanFollow(p, n) && EofOk(eof) && WorkOk(w) && w.bracket == n.open && w.nbra == n.next
    ensures var inp := match p case Piece(atom, rep) => PrintAtom(atom) + (PrintRep(rep) + rest)
                               case Open => [BACKSLASH, OPENPAR] + rest case Close => [BACKSLASH, CLOSEPAR] + rest;
            var out, next := CompileLoop(inp, w, eof, sed, cap, circf), CompileLoop(rest, WorkAfter(p, eof, n, w), eof, sed, cap, circf);
            && (out == next || out == Error(50))
            && (|WorkAfter(p, eof, n, w).code| + 18 <= cap ==> out == next)
  {
    if p.Piece? {
      var w1 := w.(code := w.code + AtomCode(p.atom), lastep := Some(|w.code|));
      CodeSizes(p, eof);
      AtomStep(p.atom, PrintRep(p.rep) + rest, w, eof, sed, cap, circf);
      if p.rep.POnce? {
        assert PrintRep(p.rep) + rest == rest;
      } else {
        RepStep(p, rest, w, eof, sed, cap, circf);
      }
      NoNest(p, eof, n);
      hide StepLoop, EncodeIns, AtomCode, ToIns, PrintAtom, PrintRep;
    } else {
      GroupStep(p, eof, n, rest, w, sed, cap, circf);
      hide StepLoop, EncodeIns, ToIns;
    }
  }

  lemma NoNest(p: Piece, eof: Byte, n: Nest)
    requires p.Piece? && PieceOk(p, eof) && NestOk(n)
    ensures ToIns(p, eof, n) == ToIns(p, eof, NOGROUP) && NestAfter(p, n) == n
  {
  }

  /** \( and \) */
  lemma GroupStep(p: Piece, eof: Byte, n: Nest, rest: seq<Byte>, w: Work, sed: bool, cap: nat, circf: bool)
    requires !p.Piece? && NestOk(n) && CanFollow(p, n) && EofOk(eof) && WorkOk(w) && w.bracket == n.open && w.nbra == n.next
    ensures var inp: seq<Byte> := [BACKSLASH, if p.Open? then OPENPAR else CLOSEPAR] + rest;
            StepLoop(inp, w, eof, sed, cap, circf)
            == if |w.code| >= cap then Stop(Error(50)) else Go(WorkAfter(p, eof, n, w), rest)
  {
    var c: Byte := if p.Open? then OPENPAR else CLOSEPAR;
    var inp: seq<Byte> := [BACKSLASH, c] + rest;
    assert inp[1..] == [c] + rest && inp[1..][1..] == rest;
  }

  /** The compiler turns the written pieces into their program. */
  lemma {:induction false} PiecesCompile(ps: seq<Piece>, dol: bool, eof: Byte, more: seq<Byte>, n: Nest,
                                         w: Work, sed: bool, cap: nat, circf: bool)
    requires PiecesOk(ps, eof) && NestOk(n) && Nested(ps, n) && EofOk(eof) && WorkOk(w) && w.bracket == n.open && w.nbra == n.next
    ensures Expected(CompileLoop(Remaining(ps, dol, eof, more), w, eof, sed, cap, circf),
                     w.code + Encode(ToProgram(ps, dol, eof, n)), cap, circf)
    decreases |ps|
  {
    if ps == [] {
      EndProgram(dol, eof, n);
      EndCompiles(dol, eof, more, w, sed, cap, circf);
    } else {
      var p, rest := ps[0], Remaining(ps[1..], dol, eof, more);
      ProgramParts(ps, dol, eof, n);
      PrintFirst(ps, dol, eof, more);
      ProgramFirst(ps, dol, eof, n, w.code);
      PieceRead(p, eof, n, rest, w, sed, cap, circf);
      hide StepLoop, CompileLoop, ToProgram, Encode, EncodeIns, ToIns, Remaining, PrintAtom, PrintRep, Nested, CanFollow, NestAfter;
      PiecesCompile(ps[1..], dol, eof, more, NestAfter(p, n), WorkAfter(p, eof, n, w), sed, cap, circf);
    }
  }

  lemma PrintFirst(ps: seq<Piece>, dol: bool, eof: Byte, more: seq<Byte>)
    requires ps != []
    ensures var rest := Remaining(ps[1..], dol, eof, more);
            Remaining(ps, dol, eof, more) ==
            match ps[0]
            case Piece(atom, rep) => PrintAtom(atom) + (PrintRep(rep) + rest)
            case Open => [BACKSLASH, OPENPAR] + rest
            case Close => [BACKSLASH, CLOSEPAR] + rest
  {
    var end := (if dol then [DOLLAR] else []) + ([eof] + more);
    var tail := PrintPieces(ps[1..]);
    match ps[0]
    case Piece(atom, rep) =>
      Grouped(PrintAtom(atom), PrintRep(rep) + tail, end);
      Grouped(PrintRep(rep), tail, end);
    case Open => Grouped([BACKSLASH, OPENPAR], tail, end);
    case Close => Grouped([BACKSLASH, CLOSEPAR], tail, end);
  }

  lemma Grouped(a: seq<Byte>, b: seq<Byte>, c: seq<Byte>)
    ensures a + (b + c) == (a + b) + c
  {
  }

  lemma ProgramFirst(ps: seq<Piece>, dol: bool, eof: Byte, n: Nest, code: seq<Byte>)
    requires PiecesOk(ps, eof) && NestOk(n) && Nested(ps, n) && ps != []
    ensures PieceOk(ps[0], eof) && CanFollow(ps[0], n) && NestOk(NestAfter(ps[0], n)) && PiecesOk(ps[1..], eof) && Nested(ps[1..], NestAfter(ps[0], n))
    ensures code + Encode(ToProgram(ps, dol, eof, n))
         == (code + EncodeIns(ToIns(ps[0], eof, n))) + Encode(ToProgram(ps[1..], dol, eof, NestAfter(ps[0], n)))
    ensures |Encode(ToProgram(ps[1..], dol, eof, NestAfter(ps[0], n)))| >= 1
  {
    var p := ToProgram(ps, dol, eof, n);
    ProgramParts(ps, dol, eof, n);
    EncodeNonEmpty(p[1..]);
    assert Encode(p) == EncodeIns(p[0]) + Encode(p[1..]);
    hide Encode, EncodeIns, ToIns, ToProgram;
    Grouped(code, EncodeIns(p[0]), Encode(p[1..]));
  }

  lemma EncodeNonEmpty(p: Program)
    ensures |Encode(p)| >= 1
  {
  }

  lemma CodeSizes(p: Piece, eof: Byte)
    requires p.Piece? && PieceOk(p, eof)
    ensures p.rep.POnce? ==> EncodeIns(ToIns(p, eof, NOGROUP)) == AtomCode(p.atom)
    ensures |AtomCode(p.atom)| <= |EncodeIns(ToIns(p, eof, NOGROUP))|
  {
  }

  /** compile, on a written pattern followed by its delimiter, makes the program of the
      pattern, or reports that the buffer is too small. */
  lemma CompileMeaning(p: Pattern, eof: Byte, more: seq<Byte>, sed: bool, cap: nat, had: bool)
    requires PatternOk(p, eof)
    ensures Expected(CompileSpec(Print(p) + ([eof] + more), eof, sed, cap, had),
                     Encode(ToProgram(p.pieces, p.dol, eof, NOGROUP)), cap, p.circ)
  {
    var src := Print(p) + ([eof] + more);
    var body := Remaining(p.pieces, p.dol, eof, more);
    SourceIs(p, eof, more);
    PiecesCompile(p.pieces, p.dol, eof, more, NOGROUP, START, sed, cap, p.circ);
    assert START.code + Encode(ToProgram(p.pieces, p.dol, eof, NOGROUP)) == Encode(ToProgram(p.pieces, p.dol, eof, NOGROUP));
    hide CompileLoop, Encode, ToProgram, Remaining, Print;
    if p.circ {
      assert src[1..] == body;
    } else {
      FirstCharOf(p, eof, more);
    }
  }

  lemma SourceIs(p: Pattern, eof: Byte, more: seq<Byte>)
    ensures var body := Remaining(p.pieces, p.dol, eof, more);
            Print(p) + ([eof] + more) == if p.circ then [CARET] + body else body
  {
    hide PrintPieces;
    var dollar: seq<Byte> := if p.dol then [DOLLAR] else [];
    var body := Remaining(p.pieces, p.dol, eof, more);
    assert (PrintPieces(p.pieces) + dollar) + ([eof] + more) == body;
  }

  lemma FirstCharOf(p: Pattern, eof: Byte, more: seq<Byte>)
    requires PatternOk(p, eof) && !p.circ
    ensures var c := Remaining(p.pieces, p.dol, eof, more); c != [] && c[0] != eof && c[0] != NL && c[0] != CARET
  {
    if p.pieces != [] {
      assert PieceOk(p.pieces[0], eof);
      PrintFirst(p.pieces, p.dol, eof, more);
      if p.pieces[0].Piece? {
        assert Remaining(p.pieces, p.dol, eof, more)[0] == PrintAtom(p.pieces[0].atom)[0];
      }
    }
  }

  /** The pattern matches at i. */
  ghost predicate MatchesAt(p: Pattern, s: seq<Byte>, i: nat) {
    exists j: nat :: Matches(p.pieces, p.dol, s, i, j)
  }

  lemma MatchMeaning(p: Pattern, eof: Byte, s: seq<Byte>, i: nat)
    requires PatternOk(p, eof) && TextOk(s) && i <= |s|
    ensures var m := Match(ToProgram(p.pieces, p.dol, eof, NOGROUP), s, i);
            && (m.Some? <==> MatchesAt(p, s, i))
            && (m.Some? ==> Matches(p.pieces, p.dol, s, i, m.value))
  {
    hide Match, Follow, Matches, ToProgram;
    var prog := ToProgram(p.pieces, p.dol, eof, NOGROUP);
    MatchIsGreatest(prog, s, i);
    var m := Match(prog, s, i);
    if m.Some? {
      assert Reaches(prog, s, i, m.value);
      ProgramMeaning(p.pieces, p.dol, eof, NOGROUP, s, i, m.value);
    }
    if j: nat :| Matches(p.pieces, p.dol, s, i, j) {
      ProgramMeaning(p.pieces, p.dol, eof, NOGROUP, s, i, j);
      var ks' :| Follow(prog, s, i, ks') == Some(j);
    }
  }

  /** compile and then step: the text matches the written pattern somewhere (or at its start,
      for a leading ^) exactly when step says so, loc1 is the leftmost place, and the groups are
      recorded as one split of the text has them. */
  method Search(src: seq<Byte>, eof: Byte, text: seq<Byte>, cap: nat, ghost p: Pattern, ghost more: seq<Byte>)
    returns (found: bool, loc1: nat, loc2: nat, bras: map<int, nat>, braes: map<int, nat>, ghost cs: seq<nat>)
    requires PatternOk(p, eof) && src == Print(p) + ([eof] + more) && TextOk(text)
    requires |Encode(ToProgram(p.pieces, p.dol, eof, NOGROUP))| + 17 <= cap
    ensures p.circ ==> (found <==> MatchesAt(p, text, 0))
    ensures !p.circ ==> (found <==> exists i :: 0 <= i <= |text| && MatchesAt(p, text, i))
    ensures found ==> Splits(p.pieces, p.dol, text, loc1, loc2, cs) && GroupsSplit(p.pieces, loc1, cs, bras, braes)
    ensures found && p.circ ==> loc1 == 0
    ensures found && !p.circ ==> forall i :: 0 <= i < loc1 ==> !MatchesAt(p, text, i)
  {
    ghost var prog := ToProgram(p.pieces, p.dol, eof, NOGROUP);
    CompileMeaning(p, eof, more, false, cap, false);
    hide CompileSpec, ToProgram, Print, Matches, MatchesAt, Encode, Match, Splits, GroupsSplit, Follow, Recorded, Nested, Counts;
    var out := Compile(src, eof, false, cap, false);
    var m := new RegexpMatch.Matcher(text, out.code, out.circf);
    assert out.code[0..] == out.code;
    found := m.Step(prog);
    loc1, loc2, bras, braes, cs := m.loc1, m.loc2, m.braslist, m.braelist, [];
    forall i | 0 <= i <= |text|
      ensures Match(prog, text, i).Some? <==> MatchesAt(p, text, i)
    {
      MatchMeaning(p, eof, text, i);
    }
    if found {
      assert MatchesAt(p, text, loc1);
      cs := FollowSplits(p.pieces, p.dol, eof, NOGROUP, text, loc1, loc2, Counts(prog, text, loc1));
      GroupsMeaning(p.pieces, p.dol, eof, text, loc1, loc2, cs, Groups(bras, braes));
    } else if !p.circ {
      assert forall i :: 0 <= i <= |text| ==> Match(prog, text, i).None?;
      assert forall i :: 0 <= i <= |text| ==> !MatchesAt(p, text, i);
    }
  }

  // ---------------------------------------------------------------- an example

  const LETTERA := Piece(PLit(97, false), POnce)
  const LETTERB := Piece(PLit(98, false), POnce)
  const ABPIECES := [Open, LETTERA, Close, LETTERB]
  const AB := Pattern(false, ABPIECES, false)
  const ABTEXT: seq<Byte> := [97, 98]
  const ABSRC: seq<Byte> := [BACKSLASH, OPENPAR, 97, BACKSLASH, CLOSEPAR, 98, 47]

  lemma ABParts()
    ensures ABPIECES[1..] == [LETTERA, Close, LETTERB] && ABPIECES[1..][1..] == [Close, LETTERB]
    ensures ABPIECES[1..][1..][1..] == [LETTERB] && ABPIECES[1..][1..][1..][1..] == []
  {
  }

  lemma ABTail()
    ensures var inside := Nest([0], 1);
            && NestAfter(Open, NOGROUP) == inside && NestAfter(LETTERA, inside) == inside && NestAfter(Close, inside) == Nest([], 1)
            && Nested([LETTERB], Nest([], 1))
            && [Close, LETTERB][1..] == [LETTERB] && [LETTERA, Close, LETTERB][1..] == [Close, LETTERB]
  {
    assert [LETTERB][1..] == [];
    assert Nested([], Nest([], 1));
  }

  lemma ABNested()
    ensures var inside := Nest([0], 1);
            && Nested([Close, LETTERB], inside) && Nested([LETTERA, Close, LETTERB], inside) && Nested(ABPIECES, NOGROUP)
            && NestAt(ABPIECES, NOGROUP, 0) == NOGROUP && NestAt(ABPIECES, NOGROUP, 2) == inside
  {
    ABParts();
    ABTail();
    var inside := Nest([0], 1);
    hide NestAfter;
    assert Nested([Close, LETTERB], inside);
    assert Nested([LETTERA, Close, LETTERB], inside);
    assert Nested(ABPIECES, NOGROUP);
    assert NestAt([Close, LETTERB], inside, 0) == inside;
    assert NestAt([LETTERA, Close, LETTERB], inside, 1) == inside;
  }

  lemma ABPrinted()
    ensures ABSRC == Print(AB) + ([47] + [])
  {
    ABParts();
    assert [LETTERB][1..] == [] && [Close, LETTERB][1..] == [LETTERB] && [LETTERA, Close, LETTERB][1..] == [Close, LETTERB];
    assert PrintPieces([LETTERB]) == [98];
    assert PrintPieces([Close, LETTERB]) == [BACKSLASH, CLOSEPAR, 98];
    assert PrintPieces([LETTERA, Close, LETTERB]) == [97, BACKSLASH, CLOSEPAR, 98];
    assert PrintPieces(ABPIECES) == [BACKSLASH, OPENPAR, 97, BACKSLASH, CLOSEPAR, 98];
  }

  lemma ABWritten()
    ensures PatternOk(AB, 47) && PiecesOk(ABPIECES, 47) && ABSRC == Print(AB) + ([47] + [])
  {
    ABNested();
    ABPrinted();
    hide Nested, Print;
  }

  /** The code of n pieces that are letters or ends of groups. */
  lemma {:induction false} SmallCode(ps: seq<Piece>, eof: Byte, n: Nest)
    requires PiecesOk(ps, eof) && NestOk(n) && Nested(ps, n) && forall p <- ps :: p.Piece? ==> p.rep.POnce? && p.atom.PLit?
    ensures |Encode(ToProgram(ps, false, eof, n))| == 2 * |ps| + 1
    decreases |ps|
  {
    if ps != [] {
      ProgramParts(ps, false, eof, n);
      SmallCode(ps[1..], eof, NestAfter(ps[0], n));
      ProgramFirst(ps, false, eof, n, []);
      assert |EncodeIns(ToIns(ps[0], eof, n))| == 2;
    }
  }

  lemma ABMatches(cs: seq<nat>)
    ensures MatchesAt(AB, ABTEXT, 0)
    ensures Splits(ABPIECES, false, ABTEXT, 0, 2, [0, 1, 0, 1])
    ensures forall i: nat, j: nat :: Splits(ABPIECES, false, ABTEXT, i, j, cs) ==> |cs| == 4 && cs[0] == 0 && cs[1] == 1
  {
    ABParts();
    var split: seq<nat> := [0, 1, 0, 1];
    assert split[1..] == [1, 0, 1] && split[1..][1..] == [0, 1] && split[1..][1..][1..] == [1] && split[1..][1..][1..][1..] == [];
    assert Splits([], false, ABTEXT, 2, 2, []);
    assert Splits([LETTERB], false, ABTEXT, 1, 2, [1]);
    assert Splits([Close, LETTERB], false, ABTEXT, 1, 2, [0, 1]);
    assert Splits([LETTERA, Close, LETTERB], false, ABTEXT, 0, 2, [1, 0, 1]);
    assert Splits(ABPIECES, false, ABTEXT, 0, 2, split);
    assert Matches(AB.pieces, AB.dol, ABTEXT, 0, 2);
  }

  lemma ABGroups(cs: seq<nat>, bras: map<int, nat>, braes: map<int, nat>)
    requires |cs| == 4 && cs[0] == 0 && cs[1] == 1 && Nested(ABPIECES, NOGROUP) && GroupsSplit(ABPIECES, 0, cs, bras, braes)
    ensures 0 in bras && bras[0] == 0 && 0 in braes && braes[0] == 1
  {
    ABNested();
    hide NestAt, Nested;
    var k := 2;
    assert ABPIECES[0].Open? && ABPIECES[k].Close?;
    assert cs[..0] == [] && cs[..2] == [0, 1] && [0, 1][1..] == [1];
    assert Sum(cs[..2]) == 1;
  }

  /** The pattern \(a\)b finds the text ab, with group 0 from 0 to 1. */
  method GroupOfA() returns (bras: map<int, nat>, braes: map<int, nat>)
    ensures 0 in bras && bras[0] == 0 && 0 in braes && braes[0] == 1
  {
    hide Splits, Nested, GroupsSplit, Print, Encode, ToProgram;
    ABWritten();
    SmallCode(ABPIECES, 47, NOGROUP);
    var found, loc1, loc2;
    ghost var cs;
    found, loc1, loc2, bras, braes, cs := Search(ABSRC, 47, ABTEXT, 40, AB, []);
    ABMatches(cs);
    ABGroups(cs, bras, braes);
  }
}
