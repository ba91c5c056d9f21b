/**
 The expression evaluator of csh (bin/csh/sh.exp.c). The levels exp0 to exp5 have one shape:
 an operand of the next level, perhaps an operator, and a right operand; Exp takes the level
 as a number. Levels 6 to 10 pass their results as decimal strings, as the source does.
 */
module CshExpr {
  import opened Options
  import opened Machine
  import opened CshNumbers
  import CshGlob

  /** The bits of the parameter ignore. */
  datatype Ign = Ign(ignore: bool, noglob: bool)

  /** What a running expression does to the world. */
  datatype Eff = Ran(words: seq<string>) | Tested(op: char, name: string)

  datatype Val = I(n: Int32) | S(s: string)

  datatype Err = SyntaxErr | BadNumber | DivBy0 | ModBy0 | MissingBrace | MissingFile | GlobErr | PatternErr

  type Toks = seq<string>

  datatype Res = Ok(v: Val, rest: Toks, eff: seq<Eff>) | Fail(e: Err)

  /** The shell around the expression: whether a command list exits with status 0, the file
      tests, and the expansion of one word. */
  datatype Env = Env(run: seq<string> -> bool, test: (char, string) -> bool, glob: string -> Option<string>)

  function Bool(b: bool): (r: Int32) { if b then 1 else 0 }

  // ---------------------------------------------------------------- isa

  const EQEQ := 1
  const GTR := 2
  const LSS := 4
  const NOTEQ := 6
  const EQMATCH := 7
  const NOTEQMATCH := 8

  function IsaEq(t: string): (i: Int32) {
    if t == "==" then EQEQ else if t == "=~" then EQMATCH
    else if t == "!=" then NOTEQ else if t == "!~" then NOTEQMATCH else 0
  }

  function IsaRel(t: string): (i: Int32) {
    if t == "" then 0 else if t[0] == '<' then LSS else if t[0] == '>' then GTR else 0
  }

  predicate IsaAdd(t: string) { t == "+" || t == "-" }

  predicate IsaMul(t: string) { t == "*" || t == "/" || t == "%" }

  /** isa(cp, ANYOP), true also at the end. */
  predicate IsaAny(toks: Toks) {
    if toks == [] then true
    else
      var t := toks[0];
      IsaAdd(t) || IsaMul(t) || t in ["(", ")", "!", "~", "^", "\""] || t in ["|&", "<<", ">>"] ||
      IsaEq(t) != 0 || IsaRel(t) != 0
  }

  // ---------------------------------------------------------------- operators of each level

  /** How many words the operator of level k takes at the cursor; 0 if there is none.
      Levels: 0 ||, 1 &&, 2 |, 3 ^, 4 &, 5 == != =~ !~, 6 < > and with =, 7 << >>, 8 + -, 9 * / %. */
  function OpLen(k: nat, toks: Toks): (n: nat)
    ensures n <= |toks|
  {
    if toks == [] then 0
    else
      var t := toks[0];
      if k == 0 then (if t == "||" then 1 else 0)
      else if k == 1 then (if t == "&&" then 1 else 0)
      else if k == 2 then (if t == "|" then 1 else 0)
      else if k == 3 then (if t == "^" then 1 else 0)
      else if k == 4 then (if t == "&" then 1 else 0)
      else if k == 5 then (if IsaEq(t) != 0 then 1 else 0)
      else if k == 6 then (if IsaRel(t) == 0 then 0 else if |toks| > 1 && toks[1] == "=" then 2 else 1)
      else if k == 7 then (if |t| > 1 && t[0] in "<>" && t[0] == t[1] then 1 else 0)
      else if k == 8 then (if IsaAdd(t) then 1 else 0)
      else if k == 9 then (if IsaMul(t) then 1 else 0)
      else 0
  }

  /** The level of the right operand: == does not repeat. */
  function RightLevel(k: nat): nat { if k == 5 then 6 else k }

  // ---------------------------------------------------------------- values

  datatype NumRes = Got(n: Int32) | Not(e: Err)

  function Egetn(s: string): NumRes {
    if s != "" && s[0] != '-' && !Digit(s[0]) then Not(SyntaxErr)
    else
      match Getn(s)
      case Num(n) => Got(n)
      case BadNum => Not(BadNumber)
  }

  /** | ^ and & put the 32 bits of two ints together. */
  function BitOr(a: Int32, b: Int32): (r: Int32)
    ensures IsOr(a, b, r)
  {
    var f := (x, y) => x || y;
    MergedBits(f, a, b);
    Signed(Merge(f, Unsigned(a), Unsigned(b), 32))
  }

  function BitXor(a: Int32, b: Int32): (r: Int32)
    ensures IsXor(a, b, r)
  {
    var f := (x, y) => x != y;
    MergedBits(f, a, b);
    Signed(Merge(f, Unsigned(a), Unsigned(b), 32))
  }

  function BitAnd(a: Int32, b: Int32): (r: Int32)
    ensures IsAnd(a, b, r)
  {
    var f := (x, y) => x && y;
    MergedBits(f, a, b);
    Signed(Merge(f, Unsigned(a), Unsigned(b), 32))
  }

  ghost predicate IsOr(a: Int32, b: Int32, r: Int32) {
    forall k :: 0 <= k < 32 ==> (Bit(Unsigned(r), k) <==> Bit(Unsigned(a), k) || Bit(Unsigned(b), k))
  }

  ghost predicate IsXor(a: Int32, b: Int32, r: Int32) {
    forall k :: 0 <= k < 32 ==> (Bit(Unsigned(r), k) <==> Bit(Unsigned(a), k) != Bit(Unsigned(b), k))
  }

  ghost predicate IsAnd(a: Int32, b: Int32, r: Int32) {
    forall k :: 0 <= k < 32 ==> (Bit(Unsigned(r), k) <==> Bit(Unsigned(a), k) && Bit(Unsigned(b), k))
  }

  lemma MergedBits(f: (bool, bool) -> bool, a: Int32, b: Int32)
    ensures var m := Merge(f, Unsigned(a), Unsigned(b), 32);
            m < TWO32 && forall k :: 0 <= k < 32 ==> (Bit(m, k) <==> f(Bit(Unsigned(a), k), Bit(Unsigned(b), k)))
  {
    hide Merge, Bit, Unsigned;
    Pow32();
    forall k | 0 <= k < 32
      ensures Bit(Merge(f, Unsigned(a), Unsigned(b), 32), k) <==> f(Bit(Unsigned(a), k), Bit(Unsigned(b), k))
    {
      MergeBit(f, Unsigned(a), Unsigned(b), 32, k);
    }
  }

  /** An int is known by its 32 bits. */
  lemma BitsDecide(r: Int32, r': Int32)
    requires forall k :: 0 <= k < 32 ==> (Bit(Unsigned(r), k) <==> Bit(Unsigned(r'), k))
    ensures r == r'
  {
    hide Bit;
    Pow32();
    SameBits(Unsigned(r), Unsigned(r'), 32);
  }

  /** << and >>; the source leaves other shift counts to the machine, here they give 0. */
  function Shl(a: Int32, b: Int32): Int32 {
    if 0 <= b < 32 then Wrap(a * Pow2(b)) else 0
  }

  function Shr(a: Int32, b: Int32): Int32 {
    if 0 <= b < 32 then Wrap(a / Pow2(b)) else 0
  }

  function Abs(n: int): nat { if n < 0 then -n else n }

  /** Division towards zero. */
  function Quot(a: Int32, b: Int32): Int32
    requires b != 0
  {
    Wrap(if (a < 0) == (b < 0) then Abs(a) / Abs(b) else -(Abs(a) / Abs(b)))
  }

  function Rem(a: Int32, b: Int32): Int32
    requires b != 0
  {
    Wrap(if a < 0 then -(Abs(a) % Abs(b)) else Abs(a) % Abs(b))
  }

  /** q and r are the quotient towards zero and what it leaves. */
  ghost predicate Divides(a: int, b: int, q: int, r: int) {
    && a == q * b + r
    && (if r < 0 then -r else r) < (if b < 0 then -b else b)
    && (r == 0 || (r < 0 <==> a < 0))
  }

  lemma QuotRem(a: Int32, b: Int32)
    requires b != 0 && !(a == -TWO31 && b == -1)
    ensures Divides(a, b, Quot(a, b), Rem(a, b))
  {
    var x: int, y: int := Abs(a), Abs(b);
    QuotFits(x, y);
    var q: int := if (a < 0) == (b < 0) then x / y else -(x / y);
    var r: int := if a < 0 then -(x % y) else x % y;
    assert Quot(a, b) == q && Rem(a, b) == r;
    hide Quot, Rem;
    Signs(q, b);
  }

  lemma Signs(q: int, b: int)
    ensures (-q) * b == -(q * b) && q * (-b) == -(q * b) && (-q) * (-b) == q * b
  {
  }

  lemma QuotFits(x: nat, y: nat)
    requires y > 0
    ensures x == x / y * y + x % y && 0 <= x / y <= x && x % y < y && (y > 1 && x > 0 ==> x / y < x)
  {
    var q := x / y;
    assert x == q * y + x % y;
    if q > 0 {
      AtLeast(q, y);
      assert q * y == q * (y - 1) + q;
      if y > 1 {
        AtLeast(y - 1, q);
      }
    }
  }

  lemma AtLeast(n: int, b: int)
    requires n >= 1 && b >= 0
    ensures n * b >= b
  {
    assert n * b == (n - 1) * b + b;
  }

  /** A multiple smaller than the number itself is 0. */
  lemma SmallMultiple(d: int, b: int)
    requires -(if b < 0 then -b else b) < d * b < (if b < 0 then -b else b)
    ensures d == 0
  {
    Signs(d, b);
    if d > 0 {
      AtLeast(d, if b < 0 then -b else b);
    } else if d < 0 {
      AtLeast(-d, if b < 0 then -b else b);
    }
  }

  /** There is one quotient and one remainder. */
  lemma DividesOnce(a: int, b: int, q: int, r: int, q': int, r': int)
    requires b != 0 && Divides(a, b, q, r) && Divides(a, b, q', r')
    ensures q == q' && r == r'
  {
    Distributes(q, q', b);
    SmallMultiple(q - q', b);
  }

  lemma Distributes(q: int, q': int, b: int)
    ensures (q - q') * b == q * b - q' * b
  {
  }

  datatype ValRes = VOk(v: Val) | VErr(e: Err)

  /** Apply the operator op of level k. */
  function Combine(k: nat, op: Toks, v1: Val, v2: Val, ig: Ign): (r: ValRes)
    requires k < 10 && OpLen(k, op) > 0
    requires k < 5 ==> v1.I? && v2.I?
    requires k >= 5 ==> v1.S? && v2.S?
    ensures r.VOk? ==> (r.v.I? <==> k <= 5)
  {
    if k == 0 then VOk(I(Bool(v1.n != 0 || v2.n != 0)))
    else if k == 1 then VOk(I(Bool(v1.n != 0 && v2.n != 0)))
    else if k == 2 then VOk(I(BitOr(v1.n, v2.n)))
    else if k == 3 then VOk(I(BitXor(v1.n, v2.n)))
    else if k == 4 then VOk(I(BitAnd(v1.n, v2.n)))
    else if k == 5 then Equality(IsaEq(op[0]), v1.s, v2.s, ig)
    else Arithmetic(k, op, v1.s, v2.s, ig)
  }

  function Equality(i: Int32, p1: string, p2: string, ig: Ign): (r: ValRes)
    ensures r.VOk? ==> r.v.I?
  {
    if ig.ignore then VOk(I(i))
    else if i == EQEQ then VOk(I(Bool(p1 == p2)))
    else if i == NOTEQ then VOk(I(Bool(p1 != p2)))
    else
      match CshGlob.Glob(p1, p2)
      case Yes => VOk(I(Bool(i == EQMATCH)))
      case No => VOk(I(Bool(i != EQMATCH)))
      case _ => VErr(PatternErr)
  }

  function Arithmetic(k: nat, op: Toks, p1: string, p2: string, ig: Ign): (r: ValRes)
    requires 6 <= k < 10 && OpLen(k, op) > 0
    ensures r.VOk? ==> r.v.S?
  {
    if k == 6 && ig.ignore then VOk(S(Putn(IsaRel(op[0]) + (if OpLen(6, op) == 2 then 1 else 0))))
    else if k >= 8 && ig.ignore then VOk(S(Putn(0)))
    else
      var a, b := Egetn(p1), Egetn(p2);
      if b.Not? then VErr(b.e)
      else if k == 9 && op[0] == "/" && b.n == 0 then VErr(DivBy0)
      else if k == 9 && op[0] == "%" && b.n == 0 then VErr(ModBy0)
      else if a.Not? then VErr(a.e)
      else VOk(S(Putn(Apply(k, op, a.n, b.n))))
  }

  function Apply(k: nat, op: Toks, a: Int32, b: Int32): Int32
    requires 6 <= k < 10 && OpLen(k, op) > 0
    requires k == 9 && op[0] != "*" ==> b != 0
  {
    if k == 6 then
      if op[0][0] == '<' then Bool(if OpLen(6, op) == 2 then a <= b else a < b)
      else Bool(if OpLen(6, op) == 2 then a >= b else a > b)
    else if k == 7 then (if op[0][0] == '<' then Shl(a, b) else Shr(a, b))
    else if k == 8 then (if op[0] == "+" then Wrap(a + b) else Wrap(a - b))
    else if op[0] == "*" then Wrap(a * b)
    else if op[0] == "/" then Quot(a, b)
    else Rem(a, b)
  }

  // ---------------------------------------------------------------- the evaluator

  /** The ignore flag for the right operand. */
  function RightIgn(k: nat, op: Toks, v1: Val, ig: Ign): Ign
    requires OpLen(k, op) > 0 && (k < 2 ==> v1.I?)
  {
    if k == 0 then Ign(ig.ignore || v1.n != 0, false)
    else if k == 1 then Ign(ig.ignore || v1.n == 0, false)
    else if k == 5 && (IsaEq(op[0]) == EQMATCH || IsaEq(op[0]) == NOTEQMATCH) then ig.(noglob := true)
    else ig
  }

  /** exp0 to exp5 and, as level 10, exp6. */
  function Exp(k: nat, toks: Toks, ig: Ign, env: Env): (r: Res)
    requires k <= 10
    ensures r.Ok? ==> |r.rest| <= |toks| && (r.v.I? <==> k <= 5)
    decreases |toks|, 11 - k
  {
    if k == 10 then Exp6(toks, ig, env)
    else
      var r1 := Exp(k + 1, toks, ig, env);
      if r1.Fail? then r1
      else
        var n := OpLen(k, r1.rest);
        if n == 0 then
          if k == 5 then
            match Egetn(r1.v.s)
            case Got(i) => Ok(I(i), r1.rest, r1.eff)
            case Not(e) => Fail(e)
          else r1
        else
          var r2 := Exp(RightLevel(k), r1.rest[n..], RightIgn(k, r1.rest, r1.v, ig), env);
          if r2.Fail? then r2
          else
            match Combine(k, r1.rest, r1.v, r2.v, ig)
            case VOk(v) => Ok(v, r2.rest, r1.eff + r2.eff)
            case VErr(e) => Fail(e)
  }

  /** The words of { ... } and what follows. */
  function UpToBrace(toks: Toks): (r: Option<(Toks, Toks)>)
    ensures r.Some? ==> |r.value.1| < |toks|
    decreases |toks|
  {
    if toks == [] then None
    else if toks[0] == "}" then Some(([], toks[1..]))
    else
      match UpToBrace(toks[1..])
      case None => None
      case Some((words, rest)) => Some(([toks[0]] + words, rest))
  }

  predicate FileTest(t: string) { |t| > 1 && t[0] == '-' && t[1] in "erwxfdzo" }

  function Exp6(toks: Toks, ig: Ign, env: Env): (r: Res)
    ensures r.Ok? ==> |r.rest| <= |toks| && r.v.S?
    decreases |toks|, 0
  {
    if toks == [] then Fail(SyntaxErr)
    else if toks[0] == "!" || toks[0] == "~" then
      var r1 := Exp(10, toks[1..], ig, env);
      if r1.Fail? then r1
      else
        match Egetn(r1.v.s)
        case Not(e) => Fail(e)
        case Got(i) => Ok(S(Putn(if toks[0] == "!" then Bool(i == 0) else -1 - i)), r1.rest, r1.eff)
    else if toks[0] == "(" then
      var r1 := Exp(0, toks[1..], ig, env);
      if r1.Fail? then r1
      else if r1.rest == [] || r1.rest[0] == "" || r1.rest[0][0] != ')' then Fail(SyntaxErr)
      else Ok(S(Putn(r1.v.n)), r1.rest[1..], r1.eff)
    else if toks[0] == "{" then
      match UpToBrace(toks[1..])
      case None => Fail(MissingBrace)
      case Some((words, rest)) =>
        if ig.ignore then Ok(S(""), rest, [])
        else Ok(S(Putn(Bool(env.run(words)))), rest, [Ran(words)])
    else if IsaAny(toks) then Ok(S(""), toks, [])
    else if FileTest(toks[0]) then
      if IsaAny(toks[1..]) then Fail(MissingFile)
      else if ig.ignore then Ok(S(""), toks[2..], [])
      else
        match env.glob(toks[1])
        case None => Fail(GlobErr)
        case Some(name) => Ok(S(Putn(Bool(env.test(toks[0][1], name)))), toks[2..], [Tested(toks[0][1], name)])
    else if ig.noglob then Ok(S(toks[0]), toks[1..], [])
    else
      match env.glob(toks[0])
      case None => Fail(GlobErr)
      case Some(w) => Ok(S(w), toks[1..], [])
  }

  // ---------------------------------------------------------------- skipping

  datatype Place = At(rest: Toks) | Stuck

  /** Where the cursor ends, from the words alone. */
  function Skip(k: nat, toks: Toks): (p: Place)
    requires k <= 10
    ensures p.At? ==> |p.rest| <= |toks|
    decreases |toks|, 11 - k
  {
    if k == 10 then Skip6(toks)
    else
      var p1 := Skip(k + 1, toks);
      if p1.Stuck? then p1
      else
        var n := OpLen(k, p1.rest);
        if n == 0 then p1 else Skip(RightLevel(k), p1.rest[n..])
  }

  function Skip6(toks: Toks): (p: Place)
    ensures p.At? ==> |p.rest| <= |toks|
    decreases |toks|, 0
  {
    if toks == [] then Stuck
    else if toks[0] == "!" || toks[0] == "~" then Skip(10, toks[1..])
    else if toks[0] == "(" then
      var p1 := Skip(0, toks[1..]);
      if p1.At? && p1.rest != [] then At(p1.rest[1..]) else Stuck
    else if toks[0] == "{" then
      match UpToBrace(toks[1..])
      case None => Stuck
      case Some((_, rest)) => At(rest)
    else if IsaAny(toks) then At(toks)
    else if FileTest(toks[0]) then (if |toks| > 1 then At(toks[2..]) else Stuck)
    else At(toks[1..])
  }

  /** At every level, with or without IGNORE, an evaluation that ends without an error
      leaves the cursor where the words alone say. */
  lemma {:induction false} CursorFromWords(k: nat, toks: Toks, ig: Ign, env: Env)
    requires k <= 10 && Exp(k, toks, ig, env).Ok?
    ensures Skip(k, toks) == At(Exp(k, toks, ig, env).rest)
    decreases |toks|, 11 - k
  {
    if k == 10 {
      if toks[0] == "!" || toks[0] == "~" {
        CursorFromWords(10, toks[1..], ig, env);
      } else if toks[0] == "(" {
        CursorFromWords(0, toks[1..], ig, env);
      }
    } else {
      CursorFromWords(k + 1, toks, ig, env);
      var r1 := Exp(k + 1, toks, ig, env);
      var n := OpLen(k, r1.rest);
      if n > 0 {
        CursorFromWords(RightLevel(k), r1.rest[n..], RightIgn(k, r1.rest, r1.v, ig), env);
      }
    }
  }

  /** Skipping is exact: both ways of reading an operand end at the same word. */
  lemma SameCursor(k: nat, toks: Toks, ig: Ign, ig': Ign, env: Env)
    requires k <= 10 && Exp(k, toks, ig, env).Ok? && Exp(k, toks, ig', env).Ok?
    ensures Exp(k, toks, ig, env).rest == Exp(k, toks, ig', env).rest
  {
    CursorFromWords(k, toks, ig, env);
    CursorFromWords(k, toks, ig', env);
  }

  /** A skipped operand runs nothing, tests nothing and never divides by zero. */
  lemma {:induction false} SkippedIsQuiet(k: nat, toks: Toks, ig: Ign, env: Env)
    requires k <= 10 && ig.ignore
    ensures match Exp(k, toks, ig, env)
            case Ok(_, _, eff) => eff == []
            case Fail(e) => e != DivBy0 && e != ModBy0
    decreases |toks|, 11 - k
  {
    hide Putn, Getn, OpLen, IsaAny, FileTest, UpToBrace, Combine;
    if k == 10 {
      if toks != [] && (toks[0] == "!" || toks[0] == "~") {
        SkippedIsQuiet(10, toks[1..], ig, env);
      } else if toks != [] && toks[0] == "(" {
        SkippedIsQuiet(0, toks[1..], ig, env);
      }
    } else {
      SkippedIsQuiet(k + 1, toks, ig, env);
      var r1 := Exp(k + 1, toks, ig, env);
      if r1.Ok? && OpLen(k, r1.rest) > 0 {
        SkippedIsQuiet(RightLevel(k), r1.rest[OpLen(k, r1.rest)..], RightIgn(k, r1.rest, r1.v, ig), env);
        var r2 := Exp(RightLevel(k), r1.rest[OpLen(k, r1.rest)..], RightIgn(k, r1.rest, r1.v, ig), env);
        if r2.Ok? {
          CombineQuiet(k, r1.rest, r1.v, r2.v, ig);
        }
      }
    }
  }

  lemma CombineQuiet(k: nat, op: Toks, v1: Val, v2: Val, ig: Ign)
    requires k < 10 && OpLen(k, op) > 0 && ig.ignore
    requires k < 5 ==> v1.I? && v2.I?
    requires k >= 5 ==> v1.S? && v2.S?
    ensures var r := Combine(k, op, v1, v2, ig); r.VErr? ==> r.e != DivBy0 && r.e != ModBy0
  {
    hide Putn, Getn, OpLen, Apply;
  }

  /** || with a true left side and && with a false one: whatever the right side is, the
      result and the effects are those of the left side. */
  lemma ShortCircuit(k: nat, toks: Toks, ig: Ign, env: Env)
    requires k < 2 && Exp(k, toks, ig, env).Ok? && Exp(k + 1, toks, ig, env).Ok?
    requires OpLen(k, Exp(k + 1, toks, ig, env).rest) > 0
    requires (Exp(k + 1, toks, ig, env).v.n != 0) == (k == 0)
    ensures Exp(k, toks, ig, env).v == I(Bool(k == 0))
    ensures Exp(k, toks, ig, env).eff == Exp(k + 1, toks, ig, env).eff
  {
    var r1 := Exp(k + 1, toks, ig, env);
    SkippedIsQuiet(k, r1.rest[1..], RightIgn(k, r1.rest, r1.v, ig), env);
  }

  // ---------------------------------------------------------------- integer expressions

  datatype BOp = OrOr | AndAnd | BOr | BXor | BAnd | EqEq | NotEq | Gt | Ge | Lt | Le
               | LShift | RShift | Add | Sub | Mul | Div | Mod

  datatype Tree = Lit(n: Int32) | Bin(op: BOp, l: Tree, r: Tree) | LNot(t: Tree) | Compl(t: Tree)

  function Level(op: BOp): (k: nat)
    ensures k < 10
  {
    match op
    case OrOr => 0
    case AndAnd => 1
    case BOr => 2
    case BXor => 3
    case BAnd => 4
    case EqEq => 5
    case NotEq => 5
    case Gt => 6
    case Ge => 6
    case Lt => 6
    case Le => 6
    case LShift => 7
    case RShift => 7
    case Add => 8
    case Sub => 8
    case _ => 9
  }

  function OpToks(op: BOp): Toks {
    match op
    case OrOr => ["||"]
    case AndAnd => ["&&"]
    case BOr => ["|"]
    case BXor => ["^"]
    case BAnd => ["&"]
    case EqEq => ["=="]
    case NotEq => ["!="]
    case Gt => [">"]
    case Ge => [">", "="]
    case Lt => ["<"]
    case Le => ["<", "="]
    case LShift => ["<<"]
    case RShift => [">>"]
    case Add => ["+"]
    case Sub => ["-"]
    case Mul => ["*"]
    case Div => ["/"]
    case Mod => ["%"]
  }

  function TreeLevel(t: Tree): nat { if t.Bin? then Level(t.op) else 10 }

  /** The words of a tree where level k is expected: every level associates to the right,
      and only what is looser is put in parentheses. */
  function Print(t: Tree, k: nat): (ws: Toks)
    ensures ws != []
    decreases t, if TreeLevel(t) < k then 1 else 0
  {
    if TreeLevel(t) < k then ["("] + Print(t, 0) + [")"]
    else
      match t
      case Lit(n) => [Putn(n)]
      case LNot(u) => ["!"] + Print(u, 10)
      case Compl(u) => ["~"] + Print(u, 10)
      case Bin(op, l, r) => Print(l, Level(op) + 1) + OpToks(op) + Print(r, RightLevel(Level(op)))
  }

  /** What an expression is worth: a value, one of the two errors, or something the source
      leaves to the machine (a shift out of range, the one overflowing quotient). */
  datatype Worth = Is(v: Int32) | Error(e: Err) | Undef

  ghost function Eval(t: Tree): Worth {
    match t
    case Lit(n) => Is(n)
    case LNot(u) =>
      var a := Eval(u);
      if a.Is? then Is(Bool(a.v == 0)) else a
    case Compl(u) =>
      var a := Eval(u);
      if a.Is? then Is(-1 - a.v) else a
    case Bin(op, l, r) =>
      var a := Eval(l);
      if !a.Is? then a
      else if op == OrOr && a.v != 0 then Is(1)
      else if op == AndAnd && a.v == 0 then Is(0)
      else
        var b := Eval(r);
        if !b.Is? then b else EvalOp(op, a.v, b.v)
  }

  ghost function EvalOp(op: BOp, a: Int32, b: Int32): Worth {
    match op
    case OrOr => Is(if b != 0 then 1 else 0)
    case AndAnd => Is(if b != 0 then 1 else 0)
    case BOr =>
      assert IsOr(a, b, BitOr(a, b));
      var r: Int32 :| IsOr(a, b, r);
      Is(r)
    case BXor =>
      assert IsXor(a, b, BitXor(a, b));
      var r: Int32 :| IsXor(a, b, r);
      Is(r)
    case BAnd =>
      assert IsAnd(a, b, BitAnd(a, b));
      var r: Int32 :| IsAnd(a, b, r);
      Is(r)
    case EqEq => Is(if a == b then 1 else 0)
    case NotEq => Is(if a != b then 1 else 0)
    case Gt => Is(if a > b then 1 else 0)
    case Ge => Is(if a >= b then 1 else 0)
    case Lt => Is(if a < b then 1 else 0)
    case Le => Is(if a <= b then 1 else 0)
    case LShift => if 0 <= b < 32 then Is(Wrap(a * Pow2(b))) else Undef
    case RShift => if 0 <= b < 32 then Is(Wrap(a / Pow2(b))) else Undef
    case Add => Is(Wrap(a + b))
    case Sub => Is(Wrap(a - b))
    case Mul => Is(Wrap(a * b))
    case Div =>
      if b == 0 then Error(DivBy0)
      else if a == -TWO31 && b == -1 then Undef
      else
        QuotRem(a, b);
        var q: Int32, r: Int32 :| Divides(a, b, q, r);
        Is(q)
    case Mod =>
      if b == 0 then Error(ModBy0)
      else if a == -TWO31 && b == -1 then Undef
      else
        QuotRem(a, b);
        var q: Int32, r: Int32 :| Divides(a, b, q, r);
        Is(r)
  }

  /** The operators that are worth what a relation says are the functions of the evaluator. */
  lemma Computed(a: Int32, b: Int32)
    ensures EvalOp(BOr, a, b) == Is(BitOr(a, b)) && EvalOp(BXor, a, b) == Is(BitXor(a, b)) && EvalOp(BAnd, a, b) == Is(BitAnd(a, b))
    ensures b != 0 && !(a == -TWO31 && b == -1) ==> EvalOp(Div, a, b) == Is(Quot(a, b)) && EvalOp(Mod, a, b) == Is(Rem(a, b))
  {
    hide BitOr, BitXor, BitAnd, Quot, Rem, Divides, Bit, Unsigned, Pow2;
    BitsDecide(EvalOp(BOr, a, b).v, BitOr(a, b));
    BitsDecide(EvalOp(BXor, a, b).v, BitXor(a, b));
    BitsDecide(EvalOp(BAnd, a, b).v, BitAnd(a, b));
    if b != 0 && !(a == -TWO31 && b == -1) {
      QuotRem(a, b);
      forall q: Int32, r: Int32 | Divides(a, b, q, r)
        ensures q == Quot(a, b) && r == Rem(a, b)
      {
        DividesOnce(a, b, q, r, Quot(a, b), Rem(a, b));
      }
    }
  }

  /** A value as level k passes it. */
  function Pass(k: nat, n: Int32): Val { if k <= 5 then I(n) else S(Putn(n)) }

  /** What follows an operand of level k does not continue it. */
  predicate Ends(k: nat, more: Toks) {
    forall j :: k <= j < 10 ==> OpLen(j, more) == 0
  }

  /** Expanding a printed number leaves it alone. */
  ghost predicate PlainGlob(env: Env) {
    forall n: Int32 :: env.glob(Putn(n)) == Some(Putn(n))
  }

  lemma EgetnPutn(n: Int32)
    ensures Egetn(Putn(n)) == Got(n)
  {
    GetnPutn(n);
    PutnStart(n);
  }

  lemma PutnStart(n: Int32)
    ensures var s := Putn(n); |s| > 0 && (Digit(s[0]) || (s[0] == '-' && |s| > 1 && Digit(s[1])))
  {
    var d := Putn1(if n == -TWO31 then 147483648 else if n < 0 then -n else n);
    assert d[0] in d;
  }

  /** One level without an operator at the cursor. */
  lemma LiftOne(k: nat, toks: Toks, ig: Ign, env: Env, n: Int32, more: Toks, eff: seq<Eff>)
    requires k < 10 && Exp(k + 1, toks, ig, env) == Ok(Pass(k + 1, n), more, eff)
    requires OpLen(k, more) == 0
    ensures Exp(k, toks, ig, env) == Ok(Pass(k, n), more, eff)
  {
    hide Exp6, Combine, OpLen, Egetn, Putn, RightIgn, RightLevel;
    EgetnPutn(n);
  }

  /** A result of level m is also a result of every level below that finds no operator. */
  lemma {:induction false} Lift(m: nat, k: nat, toks: Toks, ig: Ign, env: Env, n: Int32, more: Toks, eff: seq<Eff>)
    requires k <= m <= 10 && Exp(m, toks, ig, env) == Ok(Pass(m, n), more, eff)
    requires forall j :: k <= j < m ==> OpLen(j, more) == 0
    ensures Exp(k, toks, ig, env) == Ok(Pass(k, n), more, eff)
    decreases m - k
  {
    hide Exp, OpLen, Pass;
    if k < m {
      Lift(m, k + 1, toks, ig, env, n, more, eff);
      LiftOne(k, toks, ig, env, n, more, eff);
    }
  }

  /** An error passes through every level. */
  lemma {:induction false} LiftFail(m: nat, k: nat, toks: Toks, ig: Ign, env: Env, e: Err)
    requires k <= m <= 10 && Exp(m, toks, ig, env) == Fail(e)
    ensures Exp(k, toks, ig, env) == Fail(e)
    decreases m - k
  {
    hide Exp6, Combine, OpLen, Egetn, Putn, RightIgn, RightLevel;
    if k < m {
      LiftFail(m, k + 1, toks, ig, env, e);
    }
  }

  // ---------------------------------------------------------------- the value of a printed tree

  /** r is the value v read at level k, with nothing run and the cursor at more. */
  predicate IsValue(r: Res, k: nat, v: Int32, more: Toks) {
    r == Ok(Pass(k, v), more, [])
  }

  /** Read at level k, t is worth what Eval says; skipped, it still reads as some number. */
  ghost predicate Agrees(t: Tree, r: Res, k: nat, ignore: bool, more: Toks) {
    if ignore then exists v: Int32 :: IsValue(r, k, v, more)
    else
      match Eval(t)
      case Is(v) => IsValue(r, k, v, more)
      case Error(e) => r == Fail(e)
      case Undef => true
  }

  lemma LiftAgrees(t: Tree, m: nat, k: nat, toks: Toks, ig: Ign, env: Env, more: Toks)
    requires k <= m <= 10 && Ends(k, more)
    requires Agrees(t, Exp(m, toks, ig, env), m, ig.ignore, more)
    ensures Agrees(t, Exp(k, toks, ig, env), k, ig.ignore, more)
  {
    hide Exp, OpLen, Pass, Eval;
    if ig.ignore {
      var v: Int32 :| IsValue(Exp(m, toks, ig, env), m, v, more);
      Lift(m, k, toks, ig, env, v, more, []);
      assert IsValue(Exp(k, toks, ig, env), k, v, more);
    } else {
      match Eval(t)
      case Is(v) => Lift(m, k, toks, ig, env, v, more, []);
      case Error(e) => LiftFail(m, k, toks, ig, env, e);
      case Undef =>
    }
  }

  /** A printed number is read by exp6 as itself. */
  lemma LiteralRead(n: Int32, ig: Ign, env: Env, more: Toks)
    requires PlainGlob(env)
    ensures IsValue(Exp(10, [Putn(n)] + more, ig, env), 10, n, more)
  {
    hide Putn;
    PutnStart(n);
    var toks := [Putn(n)] + more;
    assert toks[0] == Putn(n) && toks[1..] == more;
    assert !IsaAny(toks) && !FileTest(toks[0]);
    assert Exp(10, toks, ig, env) == Exp6(toks, ig, env);
  }

  /** The first word of a printed tree is never =. */
  lemma {:induction false} PrintStart(t: Tree, k: nat)
    ensures Print(t, k)[0] != "="
    decreases t, if TreeLevel(t) < k then 1 else 0
  {
    hide Putn;
    if TreeLevel(t) >= k {
      if t.Bin? {
        PrintStart(t.l, Level(t.op) + 1);
      } else if t.Lit? {
        PutnStart(t.n);
      }
    }
  }

  /** An operator ends its left operand, and its level takes exactly its words. */
  lemma OpEnds(op: BOp, rest: Toks)
    requires rest != [] && rest[0] != "="
    ensures Ends(Level(op) + 1, OpToks(op) + rest)
    ensures OpLen(Level(op), OpToks(op) + rest) == |OpToks(op)|
  {
    var toks := OpToks(op) + rest;
    assert toks[0] == OpToks(op)[0];
    assert |OpToks(op)| == 1 ==> toks[1] == rest[0];
    assert |OpToks(op)| == 2 ==> toks[1] == OpToks(op)[1];
  }

  /** Applying the operator to two printed numbers. */
  lemma CombineValue(op: BOp, toks: Toks, a: Int32, b: Int32, ig: Ign)
    requires toks != [] && OpLen(Level(op), toks) == |OpToks(op)| && toks[0] == OpToks(op)[0]
    requires !ig.ignore
    ensures var k := Level(op);
            Combine(k, toks, Pass(k + 1, a), Pass(RightLevel(k), b), ig) ==
            match op
            case OrOr => VOk(I(Bool(a != 0 || b != 0)))
            case AndAnd => VOk(I(Bool(a != 0 && b != 0)))
            case _ =>
              match EvalOp(op, a, b)
              case Is(v) => VOk(Pass(k, v))
              case Error(e) => VErr(e)
              case Undef => Combine(k, toks, Pass(k + 1, a), Pass(RightLevel(k), b), ig)
  {
    Computed(a, b);
    hide Putn, Egetn, Wrap, Quot, Rem, Pow2, BitOr, BitXor, BitAnd, IsOr, IsXor, IsAnd, Divides, Arithmetic, Apply;
    if Level(op) == 5 {
      if a != b {
        PutnInjective(a, b);
      }
    } else if Level(op) >= 6 {
      ArithmeticValue(op, toks, a, b, ig);
    }
  }

  lemma ArithmeticValue(op: BOp, toks: Toks, a: Int32, b: Int32, ig: Ign)
    requires toks != [] && OpLen(Level(op), toks) == |OpToks(op)| && toks[0] == OpToks(op)[0]
    requires !ig.ignore && Level(op) >= 6
    ensures var k := Level(op);
            var r := Arithmetic(k, toks, Putn(a), Putn(b), ig);
            match EvalOp(op, a, b)
            case Is(v) => r == VOk(S(Putn(v)))
            case Error(e) => r == VErr(e)
            case Undef => true
  {
    Computed(a, b);
    hide Putn, Egetn, Wrap, Quot, Rem, Pow2, BitOr, BitXor, BitAnd, IsOr, IsXor, IsAnd, Divides;
    EgetnPutn(a);
    EgetnPutn(b);
  }

  /** Skipped, the operator still gives a number. */
  lemma CombineSkipped(op: BOp, toks: Toks, a: Int32, b: Int32, ig: Ign) returns (v: Int32)
    requires toks != [] && OpLen(Level(op), toks) == |OpToks(op)| && toks[0] == OpToks(op)[0]
    requires ig.ignore
    ensures Combine(Level(op), toks, Pass(Level(op) + 1, a), Pass(RightLevel(Level(op)), b), ig) ==
            VOk(Pass(Level(op), v))
  {
    hide Putn, Egetn, Wrap, Pow2, BitOr, BitXor, BitAnd, EvalOp;
    var k := Level(op);
    var r := Combine(k, toks, Pass(k + 1, a), Pass(RightLevel(k), b), ig);
    if k <= 5 {
      v := r.v.n;
    } else if k == 6 {
      v := IsaRel(toks[0]) + (if OpLen(6, toks) == 2 then 1 else 0);
    } else if k == 7 {
      EgetnPutn(a);
      EgetnPutn(b);
      v := Apply(7, toks, a, b);
    } else {
      v := 0;
    }
  }

  /** What the right operand and the operator make of the left value. */
  function Finish(k: nat, ops: Toks, v1: Val, ig: Ign, r2: Res): Res
    requires k < 10 && OpLen(k, ops) > 0
    requires v1.I? <==> k < 5
    requires r2.Ok? ==> (r2.v.I? <==> k < 5)
  {
    if r2.Fail? then r2
    else
      match Combine(k, ops, v1, r2.v, ig)
      case VOk(v) => Ok(v, r2.rest, r2.eff)
      case VErr(e) => Fail(e)
  }

  lemma ExpFinish(k: nat, toks: Toks, ig: Ign, env: Env, v1: Val, ops: Toks)
    requires k < 10 && Exp(k + 1, toks, ig, env) == Ok(v1, ops, []) && OpLen(k, ops) > 0
    ensures Exp(k, toks, ig, env) ==
            Finish(k, ops, v1, ig, Exp(RightLevel(k), ops[OpLen(k, ops)..], RightIgn(k, ops, v1, ig), env))
  {
    hide Exp6, Combine, OpLen, Egetn, RightIgn;
  }

  lemma FinishValue(op: BOp, ops: Toks, a: Int32, b: Int32, ig: Ign, more: Toks)
    requires ops != [] && OpLen(Level(op), ops) == |OpToks(op)| && ops[0] == OpToks(op)[0]
    requires !ig.ignore
    requires op != OrOr && op != AndAnd
    ensures var k := Level(op);
            var r := Finish(k, ops, Pass(k + 1, a), ig, Ok(Pass(RightLevel(k), b), more, []));
            match EvalOp(op, a, b)
            case Is(v) => IsValue(r, k, v, more)
            case Error(e) => r == Fail(e)
            case Undef => true
  {
    hide Combine, EvalOp, OpLen, Putn;
    CombineValue(op, ops, a, b, ig);
  }

  lemma FinishLogical(op: BOp, ops: Toks, a: Int32, b: Int32, ig: Ign, more: Toks)
    requires ops != [] && OpLen(Level(op), ops) == |OpToks(op)| && ops[0] == OpToks(op)[0]
    requires op == OrOr || op == AndAnd
    ensures var k := Level(op);
            var r := Finish(k, ops, I(a), ig, Ok(I(b), more, []));
            IsValue(r, k, Bool(if op == OrOr then a != 0 || b != 0 else a != 0 && b != 0), more)
  {
  }

  lemma FinishSkipped(op: BOp, ops: Toks, a: Int32, b: Int32, ig: Ign, more: Toks) returns (v: Int32)
    requires ops != [] && OpLen(Level(op), ops) == |OpToks(op)| && ops[0] == OpToks(op)[0]
    requires ig.ignore
    ensures var k := Level(op);
            IsValue(Finish(k, ops, Pass(k + 1, a), ig, Ok(Pass(RightLevel(k), b), more, [])), k, v, more)
  {
    hide Combine, OpLen, Putn;
    v := CombineSkipped(op, ops, a, b, ig);
  }

  /** The value once both operands are read: r2 is what the right operand read as. */
  lemma FinishAgrees(op: BOp, l: Tree, r: Tree, ops: Toks, a: Int32, ig: Ign, r2: Res, more: Toks)
    requires ops != [] && OpLen(Level(op), ops) == |OpToks(op)| && ops[0] == OpToks(op)[0]
    requires !ig.ignore ==> Eval(l) == Is(a)
    requires r2.Ok? ==> (r2.v.I? <==> Level(op) < 5)
    requires Agrees(r, r2, RightLevel(Level(op)), RightIgn(Level(op), ops, Pass(Level(op) + 1, a), ig).ignore, more)
    ensures Agrees(Bin(op, l, r), Finish(Level(op), ops, Pass(Level(op) + 1, a), ig, r2), Level(op), ig.ignore, more)
  {
    hide OpLen, Putn, Combine, EvalOp;
    var k := Level(op);
    var g := RightIgn(k, ops, Pass(k + 1, a), ig);
    var out := Finish(k, ops, Pass(k + 1, a), ig, r2);
    if g.ignore {
      var b: Int32 :| IsValue(r2, RightLevel(k), b, more);
      if ig.ignore {
        var v := FinishSkipped(op, ops, a, b, ig, more);
        assert IsValue(out, k, v, more);
      } else {
        FinishLogical(op, ops, a, b, ig, more);
      }
    } else if Eval(r).Is? {
      if op == OrOr || op == AndAnd {
        FinishLogical(op, ops, a, Eval(r).v, ig, more);
        assert EvalOp(op, a, Eval(r).v) == Is(Bool(Eval(r).v != 0)) by {
          LogicalWorth(op, a, Eval(r).v);
        }
      } else {
        FinishValue(op, ops, a, Eval(r).v, ig, more);
      }
    }
  }

  lemma LogicalWorth(op: BOp, a: Int32, b: Int32)
    requires op == OrOr || op == AndAnd
    ensures EvalOp(op, a, b) == Is(Bool(b != 0))
  {
  }

  /** A binary expression, given what its operands read as. */
  lemma BinaryRead(op: BOp, l: Tree, r: Tree, toks: Toks, rest: Toks, more: Toks, ig: Ign, env: Env)
    requires rest != [] && rest[0] != "="
    requires Agrees(l, Exp(Level(op) + 1, toks, ig, env), Level(op) + 1, ig.ignore, OpToks(op) + rest)
    requires forall g: Ign :: Agrees(r, Exp(RightLevel(Level(op)), rest, g, env), RightLevel(Level(op)), g.ignore, more)
    ensures Agrees(Bin(op, l, r), Exp(Level(op), toks, ig, env), Level(op), ig.ignore, more)
  {
    hide Exp, OpLen, Combine, EvalOp, Putn, Eval, Pass, Finish, OpToks, Level, RightIgn, Ends;
    var k := Level(op);
    var left := Exp(k + 1, toks, ig, env);
    var ops := OpToks(op) + rest;
    OpEnds(op, rest);
    if left.Fail? {
      LiftFail(k + 1, k, toks, ig, env, left.e);
      LeftWorth(op, l, r);
    } else if ig.ignore || Eval(l).Is? {
      var a := Witness(l, left, k + 1, ig.ignore, ops);
      OpFirst(op, rest);
      ExpFinish(k, toks, ig, env, left.v, ops);
      var g := RightIgn(k, ops, left.v, ig);
      var r2 := Exp(RightLevel(k), rest, g, env);
      assert Agrees(r, r2, RightLevel(k), g.ignore, more);
      FinishAgrees(op, l, r, ops, a, ig, r2, more);
    } else {
      LeftWorth(op, l, r);
    }
  }

  lemma Witness(t: Tree, r: Res, k: nat, ignore: bool, more: Toks) returns (a: Int32)
    requires Agrees(t, r, k, ignore, more) && (ignore || Eval(t).Is?)
    ensures IsValue(r, k, a, more) && (!ignore ==> Eval(t) == Is(a))
  {
    hide Eval;
    if ignore {
      a :| IsValue(r, k, a, more);
    } else {
      a := Eval(t).v;
    }
  }

  lemma LeftWorth(op: BOp, l: Tree, r: Tree)
    ensures !Eval(l).Is? ==> Eval(Bin(op, l, r)) == Eval(l)
  {
  }

  lemma OpFirst(op: BOp, rest: Toks)
    ensures |OpToks(op)| > 0 && (OpToks(op) + rest)[0] == OpToks(op)[0]
    ensures (OpToks(op) + rest)[|OpToks(op)|..] == rest
  {
  }

  lemma UnaryRead(t: Tree, u: Tree, rest: Toks, more: Toks, ig: Ign, env: Env)
    requires t == LNot(u) || t == Compl(u)
    requires Agrees(u, Exp(10, rest, ig, env), 10, ig.ignore, more)
    ensures Agrees(t, Exp(10, [if t.LNot? then "!" else "~"] + rest, ig, env), 10, ig.ignore, more)
  {
    hide Exp, Putn, Egetn, IsaAny, FileTest;
    var toks := [if t.LNot? then "!" else "~"] + rest;
    assert toks[1..] == rest;
    var r1 := Exp(10, rest, ig, env);
    ExpAtom(toks, ig, env);
    if r1.Ok? && (ig.ignore || Eval(u).Is?) {
      var a := Witness(u, r1, 10, ig.ignore, more);
      EgetnPutn(a);
      var v: Int32 := if t.LNot? then Bool(a == 0) else -1 - a;
      assert IsValue(Exp6(toks, ig, env), 10, v, more);
    }
  }

  lemma ExpAtom(toks: Toks, ig: Ign, env: Env)
    ensures Exp(10, toks, ig, env) == Exp6(toks, ig, env)
  {
    hide Exp6;
  }

  lemma ParenRead(t: Tree, inner: Toks, more: Toks, ig: Ign, env: Env)
    requires Agrees(t, Exp(0, inner + ([")"] + more), ig, env), 0, ig.ignore, [")"] + more)
    ensures Agrees(t, Exp(10, ["("] + inner + [")"] + more, ig, env), 10, ig.ignore, more)
  {
    hide Exp, Putn, Egetn, IsaAny, FileTest, Eval;
    var toks := ["("] + inner + [")"] + more;
    assert toks[1..] == inner + ([")"] + more);
    var r1 := Exp(0, toks[1..], ig, env);
    ExpAtom(toks, ig, env);
    if r1.Ok? && (ig.ignore || Eval(t).Is?) {
      var v := Witness(t, r1, 0, ig.ignore, [")"] + more);
      assert ([")"] + more)[1..] == more;
      assert IsValue(Exp6(toks, ig, env), 10, v, more);
    }
  }

  /** Every tree, printed where level k is expected and followed by words that do not continue
      it, is read up to those words and is worth what Eval says. */
  lemma {:induction false} PrintedRead(t: Tree, k: nat, more: Toks, ig: Ign, env: Env)
    requires k <= 10 && Ends(k, more) && PlainGlob(env)
    ensures Agrees(t, Exp(k, Print(t, k) + more, ig, env), k, ig.ignore, more)
    decreases t, if TreeLevel(t) < k then 1 else 0
  {
    hide Exp, Putn, Eval, OpLen, Agrees, PlainGlob;
    if TreeLevel(t) < k {
      CloseEnds(more);
      PrintedRead(t, 0, [")"] + more, ig, env);
      ParenPrinted(t, k, more, ig, env);
    } else {
      match t
      case Lit(n) =>
        LiteralAgrees(n, ig, env, more);
        LiftAgrees(t, 10, k, Print(t, k) + more, ig, env, more);
      case LNot(u) =>
        PrintedRead(u, 10, more, ig, env);
        UnaryPrinted(t, u, k, more, ig, env);
      case Compl(u) =>
        PrintedRead(u, 10, more, ig, env);
        UnaryPrinted(t, u, k, more, ig, env);
      case Bin(op, l, r) =>
        var m := Level(op);
        var rest := Print(r, RightLevel(m)) + more;
        PrintStart(r, RightLevel(m));
        OpEnds(op, rest);
        PrintedRead(l, m + 1, OpToks(op) + rest, ig, env);
        forall g: Ign
          ensures Agrees(r, Exp(RightLevel(m), rest, g, env), RightLevel(m), g.ignore, more)
        {
          PrintedRead(r, RightLevel(m), more, g, env);
        }
        BinaryPrinted(op, l, r, k, more, ig, env);
    }
  }

  lemma ParenPrinted(t: Tree, k: nat, more: Toks, ig: Ign, env: Env)
    requires TreeLevel(t) < k <= 10 && Ends(k, more)
    requires Agrees(t, Exp(0, Print(t, 0) + ([")"] + more), ig, env), 0, ig.ignore, [")"] + more)
    ensures Agrees(t, Exp(k, Print(t, k) + more, ig, env), k, ig.ignore, more)
  {
    hide Exp, Agrees, Ends, OpLen;
    ParenRead(t, Print(t, 0), more, ig, env);
    LiftAgrees(t, 10, k, Print(t, k) + more, ig, env, more);
  }

  lemma UnaryPrint(t: Tree, u: Tree, k: nat, more: Toks)
    requires (t == LNot(u) || t == Compl(u)) && k <= 10
    ensures Print(t, k) + more == [if t.LNot? then "!" else "~"] + (Print(u, 10) + more)
  {
    var op := if t.LNot? then "!" else "~";
    assert Print(t, k) == [op] + Print(u, 10);
    FirstWord(op, Print(u, 10), more);
  }

  lemma FirstWord(w: string, p: Toks, q: Toks)
    ensures [w] + p + q == [w] + (p + q)
  {
  }

  lemma UnaryPrinted(t: Tree, u: Tree, k: nat, more: Toks, ig: Ign, env: Env)
    requires (t == LNot(u) || t == Compl(u)) && k <= 10 && Ends(k, more)
    requires Agrees(u, Exp(10, Print(u, 10) + more, ig, env), 10, ig.ignore, more)
    ensures Agrees(t, Exp(k, Print(t, k) + more, ig, env), k, ig.ignore, more)
  {
    UnaryPrint(t, u, k, more);
    hide Exp, Agrees, Ends, OpLen, Print;
    UnaryRead(t, u, Print(u, 10) + more, more, ig, env);
    LiftAgrees(t, 10, k, Print(t, k) + more, ig, env, more);
  }

  lemma PrintBinary(op: BOp, l: Tree, r: Tree, k: nat)
    requires k <= Level(op)
    ensures var m := Level(op);
            Print(Bin(op, l, r), k) == Print(l, m + 1) + OpToks(op) + Print(r, RightLevel(m))
  {
    hide Level, OpToks, RightLevel;
  }

  lemma BinaryPrinted(op: BOp, l: Tree, r: Tree, k: nat, more: Toks, ig: Ign, env: Env)
    requires k <= Level(op) && Ends(k, more)
    requires var m := Level(op);
             var rest := Print(r, RightLevel(m)) + more;
             && rest[0] != "="
             && Agrees(l, Exp(m + 1, Print(l, m + 1) + (OpToks(op) + rest), ig, env), m + 1, ig.ignore, OpToks(op) + rest)
             && forall g: Ign :: Agrees(r, Exp(RightLevel(m), rest, g, env), RightLevel(m), g.ignore, more)
    ensures Agrees(Bin(op, l, r), Exp(k, Print(Bin(op, l, r), k) + more, ig, env), k, ig.ignore, more)
  {
    hide Exp, Agrees, Ends, OpLen, OpToks, Level, RightLevel, Print;
    PrintBinary(op, l, r, k);
    var m := Level(op);
    var t := Bin(op, l, r);
    var rest := Print(r, RightLevel(m)) + more;
    var toks := Print(l, m + 1) + (OpToks(op) + rest);
    BinaryRead(op, l, r, toks, rest, more, ig, env);
    assert Print(t, k) + more == toks;
    LiftAgrees(t, m, k, toks, ig, env, more);
  }

  lemma LiteralAgrees(n: Int32, ig: Ign, env: Env, more: Toks)
    requires PlainGlob(env)
    ensures Agrees(Lit(n), Exp(10, [Putn(n)] + more, ig, env), 10, ig.ignore, more)
  {
    hide Exp, Putn, PlainGlob;
    LiteralRead(n, ig, env, more);
  }

  /** A closing parenthesis ends every level. */
  lemma CloseEnds(more: Toks)
    ensures Ends(0, [")"] + more)
  {
  }

  /** exp on a whole printed expression: it consumes every word, runs and tests nothing, and
      returns the 32-bit value of the tree, or stops with the division error that Eval meets
      first in left-to-right, short-circuit order. */
  lemma ExpValue(t: Tree, env: Env)
    requires PlainGlob(env)
    ensures var r := Exp(0, Print(t, 0), Ign(false, false), env);
            match Eval(t)
            case Is(v) => r == Ok(I(v), [], [])
            case Error(e) => r == Fail(e)
            case Undef => true
  {
    hide Exp, Eval, Print, Putn, PlainGlob;
    PrintedRead(t, 0, [], Ign(false, false), env);
    assert Print(t, 0) + [] == Print(t, 0);
  }

  // ---------------------------------------------------------------- commands, file tests and words

  lemma BoolDigit(b: bool)
    ensures Putn(Bool(b)) == if b then "1" else "0"
  {
  }

  lemma {:induction false} BraceFound(words: Toks, more: Toks)
    requires "}" !in words
    ensures UpToBrace(words + (["}"] + more)) == Some((words, more))
    decreases |words|
  {
    var toks := words + (["}"] + more);
    if words == [] {
      assert toks[1..] == more;
    } else {
      assert toks[1..] == words[1..] + (["}"] + more);
      BraceFound(words[1..], more);
      assert [words[0]] + words[1..] == words;
    }
  }

  /** { words } runs them and is worth whether they succeed; skipped, it runs nothing. */
  lemma BraceRead(words: Toks, more: Toks, ig: Ign, env: Env)
    requires "}" !in words
    ensures Exp(10, ["{"] + (words + (["}"] + more)), ig, env) ==
            if ig.ignore then Ok(S(""), more, []) else Ok(S(if env.run(words) then "1" else "0"), more, [Ran(words)])
  {
    var toks := ["{"] + (words + (["}"] + more));
    assert toks[1..] == words + (["}"] + more);
    BraceFound(words, more);
    BoolDigit(env.run(words));
    hide Putn, UpToBrace;
  }

  /** -e name and its like test the expanded name; skipped, nothing is tested. */
  lemma TestRead(op: char, name: string, more: Toks, ig: Ign, env: Env)
    requires op in "erwxfdzo" && !IsaAny([name])
    ensures Exp(10, [['-', op], name] + more, ig, env) ==
            if ig.ignore then Ok(S(""), more, [])
            else match env.glob(name)
                 case None => Fail(GlobErr)
                 case Some(w) => Ok(S(if env.test(op, w) then "1" else "0"), more, [Tested(op, w)])
  {
    var t: string := ['-', op];
    var toks := [t, name] + more;
    assert toks[1..][0] == name && toks[2..] == more && t[0] == '-' && t[1] == op;
    assert FileTest(t) && !IsaAny(toks) && !IsaAny(toks[1..]);
    if env.glob(name).Some? {
      BoolDigit(env.test(op, env.glob(name).value));
    }
    hide Putn;
  }

  /** A word that is not an operator. */
  predicate PlainOperand(w: string) { !IsaAny([w]) && w != "{" && !FileTest(w) }

  lemma WordRead(w: string, more: Toks, ig: Ign, env: Env)
    requires PlainOperand(w)
    ensures Exp(10, [w] + more, ig, env) ==
            if ig.noglob then Ok(S(w), more, [])
            else match env.glob(w) case None => Fail(GlobErr) case Some(x) => Ok(S(x), more, [])
  {
    var toks := [w] + more;
    assert toks[1..] == more && toks[0] == w;
    assert !IsaAny(toks);
  }

  /** A word passes unchanged down to the operands of level 6. */
  lemma {:induction false} LiftWord(k: nat, toks: Toks, ig: Ign, env: Env, w: string, more: Toks)
    requires 6 <= k <= 10 && Exp(10, toks, ig, env) == Ok(S(w), more, []) && forall j :: k <= j < 10 ==> OpLen(j, more) == 0
    ensures Exp(k, toks, ig, env) == Ok(S(w), more, [])
    decreases 10 - k
  {
    hide Exp6, Combine, OpLen, Egetn, Putn;
    if k < 10 {
      LiftWord(k + 1, toks, ig, env, w, more);
    }
  }

  /** a =~ b and a !~ b match the expanded word against the pattern as it is written; == and != compare
      two expanded words. */
  lemma MatchRead(a: string, op: string, b: string, more: Toks, ig: Ign, env: Env)
    requires op in ["=~", "!~", "==", "!="] && PlainOperand(a) && PlainOperand(b) && !ig.ignore && !ig.noglob
    requires env.glob(a).Some? && env.glob(b).Some? && forall j :: 6 <= j < 10 ==> OpLen(j, more) == 0
    ensures var x, y := env.glob(a).value, env.glob(b).value;
            var r := Exp(5, [a] + ([op] + ([b] + more)), ig, env);
            if op == "==" then r == Ok(I(if x == y then 1 else 0), more, [])
            else if op == "!=" then r == Ok(I(if x != y then 1 else 0), more, [])
            else match CshGlob.Glob(x, b)
                 case Yes => r == Ok(I(if op == "=~" then 1 else 0), more, [])
                 case No => r == Ok(I(if op == "=~" then 0 else 1), more, [])
                 case _ => r == Fail(PatternErr)
  {
    var x, y := env.glob(a).value, env.glob(b).value;
    var ops := [op] + ([b] + more);
    var g := RightIgn(5, ops, S(x), ig);
    assert ops[0] == op && ops[1..] == [b] + more;
    NotHigher(op, [b] + more);
    WordRead(a, ops, ig, env);
    LiftWord(6, [a] + ops, ig, env, x, ops);
    WordRead(b, more, g, env);
    LiftWord(6, [b] + more, g, env, if g.noglob then b else y, more);
    assert g.noglob <==> op == "=~" || op == "!~";
    hide Exp6, Egetn, Putn, PlainOperand;
  }

  lemma NotHigher(op: string, rest: Toks)
    requires op in ["=~", "!~", "==", "!="]
    ensures OpLen(5, [op] + rest) == 1 && forall j :: 6 <= j < 10 ==> OpLen(j, [op] + rest) == 0
  {
  }
}
