/**
 The command parser of csh (bin/csh/sh.parse.c) on lists of words, and the printer padd
 (bin/csh/sh.proc.c) that turns a command tree back into words.

 The parser reports an error by setting `err` and going on; its caller then discards the
 tree. Here a parse is the tree or the first error.
 */
module CshParse {
  import opened Options

  datatype Flag = FAND | FINT | FCAT | FDIAG | FANY | FHERE

  /** PHERE, PIN, POUT, PDIAG */
  datatype Ctl = Ctl(here: bool, inp: bool, out: bool, diag: bool)

  const PLAIN := Ctl(false, false, false, false)

  datatype Tree =
    | Null
    | Com(av: seq<string>, flg: set<Flag>, lef: Option<string>, rit: Option<string>)
    | Par(spr: Tree, flg: set<Flag>, lef: Option<string>, rit: Option<string>)
    | Fil(car: Tree, cdr: Tree, flg: set<Flag>)
    | And(car: Tree, cdr: Tree, flg: set<Flag>)
    | Or(car: Tree, cdr: Tree, flg: set<Flag>)
    | Lst(car: Tree, cdr: Tree, flg: set<Flag>)

  datatype Parse = Ok(t: Tree) | Err(msg: string)

  type Words = seq<string>

  /** word[0] and word[1], NUL past the end. */
  function W0(w: string): char { if |w| > 0 then w[0] else '\0' }
  function W1(w: string): char { if |w| > 1 then w[1] else '\0' }

  // ---------------------------------------------------------------- looking for a separator

  /** What syn0, syn1, syn1a, syn1b and syn2 look for outside parentheses. */
  datatype Kind = Amp | Semi | OrOr | AndAnd | Bar

  predicate IsSep(k: Kind, w: string) {
    match k
    case Amp => W0(w) == '&' && W1(w) != '&'
    case Semi => W0(w) == ';' || W0(w) == '\n'
    case OrOr => W0(w) == '|' && W1(w) == '|'
    case AndAnd => W0(w) == '&' && W1(w) == '&'
    case Bar => W0(w) == '|'
  }

  datatype Where = At(i: nat) | Nowhere

  /** The first separator at depth 0, counting the depth from l. */
  function Scan(ws: Words, l: int, k: Kind): (r: Where)
    ensures r.At? ==> r.i < |ws| && IsSep(k, ws[r.i])
    decreases |ws|
  {
    if ws == [] then Nowhere
    else if W0(ws[0]) == '(' then Later(Scan(ws[1..], l + 1, k))
    else if W0(ws[0]) == ')' then Later(Scan(ws[1..], l - 1, k))
    else if IsSep(k, ws[0]) && l == 0 then At(0)
    else Later(Scan(ws[1..], l, k))
  }

  function Later(r: Where): Where {
    if r.At? then At(r.i + 1) else r
  }

  /** syn0's loop, which also checks the parentheses and steps over the & of |& and >&. */
  datatype Top = AmpAt(i: nat) | Clear | TooManyClose | TooManyOpen

  function Scan0(ws: Words, l: int): (r: Top)
    ensures r.AmpAt? ==> r.i < |ws| && IsSep(Amp, ws[r.i])
    decreases |ws|
  {
    if ws == [] then (if l == 0 then Clear else TooManyOpen)
    else
      var c := W0(ws[0]);
      if c == '(' then Later0(Scan0(ws[1..], l + 1), 1)
      else if c == ')' then (if l - 1 < 0 then TooManyClose else Later0(Scan0(ws[1..], l - 1), 1))
      else if (c == '|' && W1(ws[0]) != '|') || c == '>' then
        if |ws| > 1 && ws[1] == "&" then Later0(Scan0(ws[2..], l), 2) else Later0(Scan0(ws[1..], l), 1)
      else if IsSep(Amp, ws[0]) && l == 0 then AmpAt(0)
      else Later0(Scan0(ws[1..], l), 1)
  }

  function Later0(r: Top, n: nat): Top {
    if r.AmpAt? then AmpAt(r.i + n) else r
  }

  // ---------------------------------------------------------------- the parser

  /** syntax */
  function Syntax(ws: Words, ctl: Ctl): (p: Parse)
    decreases |ws|, 6
  {
    if ws == [] then Ok(Null)
    else if W0(ws[0]) in ";&\n" then Syntax(ws[1..], ctl)
    else Syn0(ws, ctl)
  }

  function Background(t: Tree): Tree {
    match t
    case Lst(_, _, _) => Par(t, {FAND, FINT}, None, None)
    case And(_, _, _) => Par(t, {FAND, FINT}, None, None)
    case Or(_, _, _) => Par(t, {FAND, FINT}, None, None)
    case Com(av, flg, lef, rit) => Com(av, flg + {FAND, FINT}, lef, rit)
    case Par(spr, flg, lef, rit) => Par(spr, flg + {FAND, FINT}, lef, rit)
    case Fil(car, cdr, flg) => Fil(car, cdr, flg + {FAND, FINT})
    case Null => Null
  }

  function Syn0(ws: Words, ctl: Ctl): (p: Parse)
    decreases |ws|, 5
  {
    match Scan0(ws, 0)
    case TooManyClose => Err("Too many )'s")
    case TooManyOpen => Err("Too many ('s")
    case Clear => Syn1(ws, ctl)
    case AmpAt(i) =>
      var p1 := Syn1(ws[..i], ctl);
      if p1.Err? then p1
      else
        var p2 := Syntax(ws[i + 1..], ctl);
        if p2.Err? then p2 else Ok(Lst(Background(p1.t), p2.t, {}))
  }

  function Syn1(ws: Words, ctl: Ctl): (p: Parse)
    decreases |ws|, 4
  {
    match Scan(ws, 0, Semi)
    case Nowhere => Syn1a(ws, ctl)
    case At(i) =>
      var p1 := Syn1a(ws[..i], ctl);
      if p1.Err? then p1
      else
        var p2 := Syntax(ws[i + 1..], ctl);
        if p2.Err? then p2
        else if p2.t.Null? then Ok(Lst(Null, p1.t, {}))
        else Ok(Lst(p1.t, p2.t, {}))
  }

  function Syn1a(ws: Words, ctl: Ctl): (p: Parse)
    decreases |ws|, 3
  {
    match Scan(ws, 0, OrOr)
    case Nowhere => Syn1b(ws, ctl)
    case At(i) =>
      var p1 := Syn1b(ws[..i], ctl);
      if p1.Err? then p1
      else
        var p2 := Syn1a(ws[i + 1..], ctl);
        if p2.Err? then p2 else Ok(Or(p1.t, p2.t, {}))
  }

  function Syn1b(ws: Words, ctl: Ctl): (p: Parse)
    decreases |ws|, 2
  {
    match Scan(ws, 0, AndAnd)
    case Nowhere => Syn2(ws, ctl)
    case At(i) =>
      var p1 := Syn2(ws[..i], ctl);
      if p1.Err? then p1
      else
        var p2 := Syn1b(ws[i + 1..], ctl);
        if p2.Err? then p2 else Ok(And(p1.t, p2.t, {}))
  }

  function Syn2(ws: Words, ctl: Ctl): (p: Parse)
    decreases |ws|, 1
  {
    match Scan(ws, 0, Bar)
    case Nowhere => Syn3(ws, ctl)
    case At(i) =>
      var amp := i + 1 < |ws| && W0(ws[i + 1]) == '&';
      var p1 := Syn3(ws[..i], ctl.(out := true, diag := ctl.diag || amp));
      if p1.Err? then p1
      else
        var p2 := Syn2(ws[if amp then i + 2 else i + 1..], ctl.(inp := true));
        if p2.Err? then p2 else Ok(Fil(p1.t, p2.t, if amp then {FDIAG} else {}))
  }

  const SPECIAL := ["exit", "foreach", "if", "@", "set", "switch", "while"]

  /** specp: whether the first word, after any else, is one of the special keywords. */
  function Special(ws: Words): bool
    decreases |ws|
  {
    ws != [] && (if ws[0] == "else" then Special(ws[1..]) else ws[0] in SPECIAL)
  }

  /** The variables of syn3's second loop: av, the depth, where the parenthesised part starts
      and ends, the flags and the two redirections. */
  datatype Args = Args(av: seq<string>, l: int, lp: Option<nat>, rp: Option<nat>,
                       flg: set<Flag>, lef: Option<string>, rit: Option<string>)

  datatype ArgStep = Go(a: Args, next: nat) | Bad(msg: string)

  const NOARGS := Args([], 0, None, None, {}, None, None)

  predicate RelPar(w: string) { W0(w) in "<>()" }

  /** One turn of the loop at word i. */
  function ArgTurn(ws: Words, i: nat, a: Args, specp: bool, ctl: Ctl): (s: ArgStep)
    requires i < |ws|
    ensures s.Go? ==> i < s.next <= |ws|
  {
    var w := ws[i];
    if W0(w) == '(' then
      if a.l == 0 && a.lp.Some? && !specp then Bad("Badly placed (")
      else
        var a1 := a.(l := a.l + 1, lp := if a.l == 0 then Some(i + 1) else a.lp);
        Go(if specp then a1.(av := a1.av + [w]) else a1, i + 1)
    else if W0(w) == ')' then
      var a1 := a.(l := a.l - 1, rp := if a.l - 1 == 0 then Some(i) else a.rp);
      Go(if specp then a1.(av := a1.av + [w]) else a1, i + 1)
    else if W0(w) == '>' && a.l == 0 then RightTurn(ws, i, a, ctl)
    else if W0(w) == '<' && a.l == 0 then LeftTurn(ws, i, a, ctl)
    else if a.l != 0 && !specp then Go(a, i + 1)
    else Go(a.(av := a.av + [w]), i + 1)
  }

  function RightTurn(ws: Words, i: nat, a: Args, ctl: Ctl): (s: ArgStep)
    requires i < |ws|
    ensures s.Go? ==> i < s.next <= |ws|
  {
    var f1 := if W1(ws[i]) == '>' then a.flg + {FCAT} else a.flg;
    var amp := i + 1 < |ws| && ws[i + 1] == "&";
    if amp && (ctl.out || ctl.diag) then Bad("Ambiguous output redirect")
    else
      var j := if amp then i + 1 else i;
      var f2 := if amp then f1 + {FDIAG} else f1;
      var bang := j + 1 < |ws| && ws[j + 1] == "!";
      var k := if bang then j + 1 else j;
      var f3 := if bang then f2 + {FANY} else f2;
      if k + 1 >= |ws| || RelPar(ws[k + 1]) then Bad("Missing name for redirect")
      else if (ctl.out && !ctl.diag) || a.rit.Some? then Bad("Ambiguous output redirect")
      else Go(a.(flg := f3, rit := Some(ws[k + 1])), k + 2)
  }

  function LeftTurn(ws: Words, i: nat, a: Args, ctl: Ctl): (s: ArgStep)
    requires i < |ws|
    ensures s.Go? ==> i < s.next <= |ws|
  {
    var f := if W1(ws[i]) == '<' then a.flg + {FHERE} else a.flg;
    if i + 1 >= |ws| || RelPar(ws[i + 1]) then Bad("Missing name for redirect")
    else if ctl.here && FHERE in f then Bad("Can't << within ()'s")
    else if ctl.inp || a.lef.Some? then Bad("Ambiguous input redirect")
    else Go(a.(flg := f, lef := Some(ws[i + 1])), i + 2)
  }

  function ArgLoop(ws: Words, i: nat, a: Args, specp: bool, ctl: Ctl): (s: ArgStep)
    requires i <= |ws|
    decreases |ws| - i
  {
    if i == |ws| then Go(a, i)
    else
      match ArgTurn(ws, i, a, specp, ctl)
      case Bad(msg) => Bad(msg)
      case Go(a', next) => ArgLoop(ws, next, a', specp, ctl)
  }

  function Syn3(ws: Words, ctl: Ctl): (p: Parse)
    decreases |ws|, 0
  {
    var specp := Special(ws);
    match ArgLoop(ws, 0, NOARGS, specp, ctl)
    case Bad(msg) => Err(msg)
    case Go(a, _) =>
      if a.lp.Some? && !specp then
        if a.av != [] then Err("Badly placed ()'s")
        // an unmatched ( has been reported by syn0
        else if a.rp.None? || !(0 < a.lp.value <= a.rp.value < |ws|) then Err("Too many ('s")
        else
          var p := Syn0(ws[a.lp.value..a.rp.value], PLAIN.(here := true));
          if p.Err? then p else Ok(Par(p.t, a.flg, a.lef, a.rit))
      else if a.av == [] then Err("Invalid null command")
      else Ok(Com(a.av, a.flg, a.lef, a.rit))
  }

  // ---------------------------------------------------------------- the printer

  /** padd's words, without redirections. */
  function Tokens(t: Tree): Words {
    match t
    case Null => []
    case Par(spr, _, _, _) => ["("] + Tokens(spr) + [")"]
    case Com(av, _, _, _) => av
    case Or(car, cdr, _) => Tokens(car) + ["||"] + Tokens(cdr)
    case And(car, cdr, _) => Tokens(car) + ["&&"] + Tokens(cdr)
    case Fil(car, cdr, _) => Tokens(car) + ["|"] + Tokens(cdr)
    case Lst(car, cdr, _) => Tokens(car) + [";"] + Tokens(cdr)
  }

  // ---------------------------------------------------------------- normal forms

  predicate PlainWord(w: string) { w != "" && w[0] !in "()|&;<>\n" }

  /** The shapes the parser builds from plain commands, parentheses, |, &&, || and ;. */
  predicate Simple(t: Tree)
    decreases t, 0
  {
    match t
    case Com(av, flg, lef, rit) => av != [] && (forall w <- av :: PlainWord(w)) && flg == {} && lef.None? && rit.None?
    case Par(spr, flg, lef, rit) => Listed(spr) && flg == {} && lef.None? && rit.None?
    case _ => false
  }

  predicate Piped(t: Tree)
    decreases t, 1
  {
    Simple(t) || (t.Fil? && Simple(t.car) && Piped(t.cdr) && t.flg == {})
  }

  predicate Anded(t: Tree)
    decreases t, 2
  {
    Piped(t) || (t.And? && Piped(t.car) && Anded(t.cdr) && t.flg == {})
  }

  predicate Ored(t: Tree)
    decreases t, 3
  {
    Anded(t) || (t.Or? && Anded(t.car) && Ored(t.cdr) && t.flg == {})
  }

  predicate Listed(t: Tree)
    decreases t, 4
  {
    Ored(t) || (t.Lst? && Ored(t.car) && Listed(t.cdr) && t.flg == {})
  }

  /** No separator of this kind outside the parentheses of t. */
  predicate Free(t: Tree, k: Kind) {
    match t
    case Null => true
    case Com(_, _, _, _) => true
    case Par(_, _, _, _) => true
    case Fil(car, cdr, _) => k != Bar && Free(car, k) && Free(cdr, k)
    case And(car, cdr, _) => k != AndAnd && Free(car, k) && Free(cdr, k)
    case Or(car, cdr, _) => k != OrOr && k != Bar && Free(car, k) && Free(cdr, k)
    case Lst(car, cdr, _) => k != Semi && Free(car, k) && Free(cdr, k)
  }

  function Shift(r: Where, n: nat): Where {
    if r.At? then At(r.i + n) else r
  }

  lemma {:induction false} ScanPlain(av: Words, v: Words, l: nat, k: Kind)
    requires forall w <- av :: PlainWord(w)
    ensures Scan(av + v, l, k) == Shift(Scan(v, l, k), |av|)
    ensures Scan0(av + v, l) == Later0(Scan0(v, l), |av|)
  {
    if av == [] {
      assert av + v == v;
    } else {
      assert PlainWord(av[0]);
      assert (av + v)[1..] == av[1..] + v;
      ScanPlain(av[1..], v, l, k);
    }
  }

  /** Every level of the grammar is one of the levels above it. */
  lemma Levels(t: Tree)
    ensures Simple(t) ==> Piped(t)
    ensures Piped(t) ==> Anded(t)
    ensures Anded(t) ==> Ored(t)
    ensures Ored(t) ==> Listed(t)
  {
  }

  predicate Binary(t: Tree) { t.Fil? || t.And? || t.Or? || t.Lst? }

  /** What a tree in normal form is made of. */
  lemma Shape(t: Tree)
    requires Listed(t)
    ensures !t.Null?
    ensures t.Com? || t.Par? ==> Simple(t)
    ensures t.Par? ==> Listed(t.spr)
    ensures t.Fil? ==> Piped(t) && Simple(t.car) && Piped(t.cdr)
    ensures t.And? ==> Anded(t) && Piped(t.car) && Anded(t.cdr)
    ensures t.Or? ==> Ored(t) && Anded(t.car) && Ored(t.cdr)
    ensures t.Lst? ==> Ored(t.car) && Listed(t.cdr)
    ensures Binary(t) ==> Listed(t.car) && Listed(t.cdr) && t.flg == {}
  {
    if Ored(t) {
      if Anded(t) {
        if Piped(t) {
          assert Simple(t) || t.Fil?;
        }
      }
    }
    if Binary(t) {
      Levels(t.car);
      Levels(t.cdr);
    }
  }

  lemma Parts(t: Tree)
    requires Listed(t)
    ensures t.Com? || t.Par? || Binary(t)
    ensures t.Com? ==> forall w <- t.av :: PlainWord(w)
    ensures t.Par? ==> Listed(t.spr)
    ensures Binary(t) ==> Listed(t.car) && Listed(t.cdr)
  {
    Shape(t);
  }

  function OpOf(t: Tree): string
    requires Binary(t)
  {
    if t.Fil? then "|" else if t.And? then "&&" else if t.Or? then "||" else ";"
  }

  /** One word of a scan. */
  lemma ScanWord(w: string, v: Words, l: int, k: Kind)
    ensures Scan([w] + v, l, k)
         == if W0(w) == '(' then Later(Scan(v, l + 1, k))
            else if W0(w) == ')' then Later(Scan(v, l - 1, k))
            else if IsSep(k, w) && l == 0 then At(0)
            else Later(Scan(v, l, k))
  {
    assert ([w] + v)[1..] == v;
  }

  lemma Scan0Word(w: string, v: Words, l: nat)
    requires w in ["(", ")", "|", "&&", "||", ";"] && (w == ")" ==> l > 0) && (w == "|" ==> v == [] || v[0] != "&")
    ensures Scan0([w] + v, l)
         == Later0(Scan0(v, if w == "(" then l + 1 else if w == ")" then l - 1 else l), 1)
  {
    var ws := [w] + v;
    assert ws[1..] == v;
  }

  lemma TokensOf(t: Tree, v: Words)
    ensures t.Par? ==> Tokens(t) + v == ["("] + (Tokens(t.spr) + ([")"] + v))
    ensures t.Par? ==> |Tokens(t)| == |Tokens(t.spr)| + 2
    ensures Binary(t) ==> Tokens(t) + v == Tokens(t.car) + ([OpOf(t)] + (Tokens(t.cdr) + v))
    ensures Binary(t) ==> |Tokens(t)| == |Tokens(t.car)| + 1 + |Tokens(t.cdr)|
  {
    hide Tokens;
    if t.Par? {
      TokensPar(t);
    } else if Binary(t) {
      TokensBinary(t);
    }
  }

  lemma TokensPar(t: Tree)
    requires t.Par?
    ensures Tokens(t) == ["("] + Tokens(t.spr) + [")"]
  {
  }

  lemma TokensBinary(t: Tree)
    requires Binary(t)
    ensures Tokens(t) == Tokens(t.car) + [OpOf(t)] + Tokens(t.cdr)
  {
  }

  lemma FreeParts(t: Tree, k: Kind)
    requires Binary(t) && Free(t, k)
    ensures Free(t.car, k) && Free(t.cdr, k) && !IsSep(k, OpOf(t))
  {
  }

  /** The words of a tree are balanced, and hide all separators that are not its own. */
  lemma {:induction false} ScanTokens(t: Tree, v: Words, l: nat, k: Kind)
    requires Listed(t) && (l > 0 || Free(t, k))
    ensures Scan(Tokens(t) + v, l, k) == Shift(Scan(v, l, k), |Tokens(t)|)
    decreases t, 1
  {
    hide Listed, Scan, Free, IsSep;
    Parts(t);
    TokensOf(t, v);
    if t.Com? {
      ScanPlain(t.av, v, l, k);
    }
    hide Tokens;
    if t.Par? {
      ScanWord("(", Tokens(t.spr) + ([")"] + v), l, k);
      ScanTokens(t.spr, [")"] + v, l + 1, k);
      ScanWord(")", v, l + 1, k);
    } else if Binary(t) {
      ScanPair(t, v, l, k);
    }
  }

  lemma {:induction false} ScanPair(t: Tree, v: Words, l: nat, k: Kind)
    requires Binary(t) && Listed(t.car) && Listed(t.cdr) && (l > 0 || Free(t, k))
    ensures Scan(Tokens(t) + v, l, k) == Shift(Scan(v, l, k), |Tokens(t)|)
    decreases t, 0
  {
    hide Listed, Scan, Free, IsSep, Tokens;
    TokensOf(t, v);
    if l == 0 {
      FreeParts(t, k);
    }
    ScanTokens(t.car, [OpOf(t)] + (Tokens(t.cdr) + v), l, k);
    ScanWord(OpOf(t), Tokens(t.cdr) + v, l, k);
    ScanTokens(t.cdr, v, l, k);
  }

  lemma ScanPar(inner: Words, v: Words, l: nat)
    requires Scan0(inner + ([")"] + v), l + 1) == Later0(Scan0([")"] + v, l + 1), |inner|)
    ensures Scan0(["("] + (inner + ([")"] + v)), l) == Later0(Scan0(v, l), |inner| + 2)
  {
    hide Scan0;
    Scan0Word("(", inner + ([")"] + v), l);
    Scan0Word(")", v, l + 1);
  }

  lemma ScanBinary(op: string, left: Words, right: Words, v: Words, l: nat)
    requires op in ["|", "&&", "||", ";"] && right != [] && right[0] != "&"
    requires Scan0(left + ([op] + (right + v)), l) == Later0(Scan0([op] + (right + v), l), |left|)
    requires Scan0(right + v, l) == Later0(Scan0(v, l), |right|)
    ensures Scan0(left + ([op] + (right + v)), l) == Later0(Scan0(v, l), |left| + 1 + |right|)
  {
    hide Scan0;
    Scan0Word(op, right + v, l);
  }

  lemma {:induction false} Scan0Tokens(t: Tree, v: Words, l: nat)
    requires Listed(t)
    ensures Scan0(Tokens(t) + v, l) == Later0(Scan0(v, l), |Tokens(t)|)
    decreases t
  {
    hide Listed, Scan0, Later0;
    Parts(t);
    TokensOf(t, v);
    if t.Com? {
      ScanPlain(t.av, v, l, Amp);
    } else if t.Par? {
      hide Tokens;
      Scan0Tokens(t.spr, [")"] + v, l + 1);
      ScanPar(Tokens(t.spr), v, l);
    } else if Binary(t) {
      FirstToken(t.cdr);
      hide Tokens;
      Scan0Tokens(t.car, [OpOf(t)] + (Tokens(t.cdr) + v), l);
      Scan0Tokens(t.cdr, v, l);
      ScanBinary(OpOf(t), Tokens(t.car), Tokens(t.cdr), v, l);
    }
  }

  /** The words of a tree start with a plain word or an open parenthesis. */
  lemma {:induction false} FirstToken(t: Tree)
    requires Listed(t)
    ensures Tokens(t) != [] && (PlainWord(Tokens(t)[0]) || Tokens(t)[0] == "(")
    decreases t
  {
    Shape(t);
    if t.Com? {
      assert t.av[0] in t.av;
    } else if Binary(t) {
      FirstToken(t.car);
    }
  }

  /** Which separators a level of the grammar can have outside parentheses. */
  lemma {:induction false} LevelFree(t: Tree)
    requires Listed(t)
    ensures Free(t, Amp)
    ensures Ored(t) ==> Free(t, Semi)
    ensures Anded(t) ==> Free(t, OrOr)
    ensures Piped(t) ==> Free(t, AndAnd)
    ensures Simple(t) ==> Free(t, Bar)
    decreases t
  {
    Shape(t);
    Levels(t);
    if Binary(t) {
      Levels(t.car);
      Levels(t.cdr);
      LevelFree(t.car);
      LevelFree(t.cdr);
    }
  }

  // ---------------------------------------------------------------- reading back

  /** Each parsing function, on the words of a tree of its level, gives back the tree. */
  ghost predicate ReadsBack(t: Tree) {
    && (forall ctl :: Syntax(Tokens(t), ctl) == Ok(t))
    && (forall ctl :: Syn0(Tokens(t), ctl) == Ok(t))
    && (forall ctl :: Syn1(Tokens(t), ctl) == Ok(t))
    && (Ored(t) ==> forall ctl :: Syn1a(Tokens(t), ctl) == Ok(t))
    && (Anded(t) ==> forall ctl :: Syn1b(Tokens(t), ctl) == Ok(t))
    && (Piped(t) ==> forall ctl :: Syn2(Tokens(t), ctl) == Ok(t))
    && (Simple(t) ==> forall ctl :: Syn3(Tokens(t), ctl) == Ok(t))
  }

  /** The separator of a node is found right after the words of its first part. */
  lemma FoundAt(t: Tree, k: Kind)
    requires Binary(t) && Listed(t.car) && Free(t.car, k) && IsSep(k, OpOf(t))
    ensures var ws := Tokens(t);
            && Scan(ws, 0, k) == At(|Tokens(t.car)|)
            && ws[..|Tokens(t.car)|] == Tokens(t.car)
            && ws[|Tokens(t.car)| + 1..] == Tokens(t.cdr)
  {
    TokensBinary(t);
    hide Scan, Tokens, IsSep, Listed, Free;
    var right := [OpOf(t)] + Tokens(t.cdr);
    assert Tokens(t) == Tokens(t.car) + right;
    ScanTokens(t.car, right, 0, k);
    ScanWord(OpOf(t), Tokens(t.cdr), 0, k);
  }

  lemma NotFound(t: Tree, k: Kind)
    requires Listed(t) && Free(t, k)
    ensures Scan(Tokens(t), 0, k) == Nowhere
  {
    ScanTokens(t, [], 0, k);
    assert Tokens(t) + [] == Tokens(t);
  }

  lemma TopClear(t: Tree)
    requires Listed(t)
    ensures Scan0(Tokens(t), 0) == Clear
  {
    Scan0Tokens(t, [], 0);
    assert Tokens(t) + [] == Tokens(t);
  }

  lemma {:induction false} Read3(t: Tree, ctl: Ctl)
    requires Simple(t) && (t.Par? ==> forall c :: Syn0(Tokens(t.spr), c) == Ok(t.spr))
    ensures Syn3(Tokens(t), ctl) == Ok(t)
  {
    if t.Com? {
      ComArgs(t.av, 0, NOARGS, Special(t.av), ctl);
      assert t.av[0..] == t.av && [] + t.av == t.av;
    } else {
      var ws := Tokens(t);
      assert !Special(ws);
      ParArgs(t.spr, ctl);
      assert ws[1..|ws| - 1] == Tokens(t.spr);
    }
  }

  /** Plain words are collected. */
  lemma {:induction false} ComArgs(ws: Words, i: nat, a: Args, specp: bool, ctl: Ctl)
    requires i <= |ws| && a.l == 0 && forall w <- ws :: PlainWord(w)
    ensures ArgLoop(ws, i, a, specp, ctl) == Go(a.(av := a.av + ws[i..]), |ws|)
    decreases |ws| - i
  {
    if i < |ws| {
      assert ws[i] in ws;
      var a1 := a.(av := a.av + [ws[i]]);
      ComArgs(ws, i + 1, a1, specp, ctl);
      assert a1.av + ws[i + 1..] == a.av + ws[i..];
    } else {
      assert a.av + ws[i..] == a.av;
    }
  }

  /** Inside parentheses nothing is collected. */
  lemma {:induction false} InnerWords(ws: Words, i: nat, j: nat, a: Args, ctl: Ctl)
    requires i <= j <= |ws| && a.l >= 1 && forall m :: i <= m < j ==> W0(ws[m]) !in "()"
    ensures ArgLoop(ws, i, a, false, ctl) == ArgLoop(ws, j, a, false, ctl)
    decreases j - i
  {
    if i < j {
      InnerWords(ws, i + 1, j, a, ctl);
    }
  }

  lemma Slices(ws: Words, i: nat, a: Words, b: Words, c: Words)
    requires i + |a| + |b| + |c| <= |ws| && ws[i..i + |a| + |b| + |c|] == a + (b + c)
    ensures ws[i..i + |a|] == a
    ensures ws[i + |a|..i + |a| + |b|] == b
    ensures ws[i + |a| + |b|..i + |a| + |b| + |c|] == c
    ensures |a| > 0 ==> ws[i] == a[0]
    ensures |b| > 0 ==> ws[i + |a|] == b[0]
    ensures |c| > 0 ==> ws[i + |a| + |b|] == c[0]
  {
    var s := ws[i..i + |a| + |b| + |c|];
    assert forall m :: 0 <= m < |s| ==> ws[i + m] == s[m];
    assert forall m :: 0 <= m < |a| ==> s[m] == a[m];
    assert forall m :: 0 <= m < |b| ==> s[|a| + m] == b[m];
    assert forall m :: 0 <= m < |c| ==> s[|a| + |b| + m] == c[m];
    forall m | 0 <= m < |b|
      ensures ws[i + |a| + m] == b[m]
    {
      assert ws[i + (|a| + m)] == s[|a| + m];
    }
    forall m | 0 <= m < |c|
      ensures ws[i + |a| + |b| + m] == c[m]
    {
      assert ws[i + (|a| + |b| + m)] == s[|a| + |b| + m];
    }
    assert |b| > 0 ==> ws[i + |a| + 0] == b[0];
    assert |c| > 0 ==> ws[i + |a| + |b| + 0] == c[0];
  }

  lemma {:induction false} InnerArgs(ws: Words, i: nat, t: Tree, a: Args, ctl: Ctl)
    requires Listed(t) && a.l >= 1
    requires i + |Tokens(t)| <= |ws| && ws[i..i + |Tokens(t)|] == Tokens(t)
    ensures ArgLoop(ws, i, a, false, ctl) == ArgLoop(ws, i + |Tokens(t)|, a, false, ctl)
    decreases t, 1
  {
    hide Listed, ArgLoop;
    Parts(t);
    if t.Com? {
      forall m | i <= m < i + |t.av|
        ensures W0(ws[m]) !in "()"
      {
        assert ws[m] == ws[i..i + |t.av|][m - i] && t.av[m - i] in t.av;
      }
      InnerWords(ws, i, i + |t.av|, a, ctl);
    }
    hide Tokens;
    if t.Par? {
      InnerPar(ws, i, t, a, ctl);
    } else if Binary(t) {
      InnerPair(ws, i, t, a, ctl);
    }
  }

  lemma {:induction false} InnerPar(ws: Words, i: nat, t: Tree, a: Args, ctl: Ctl)
    requires t.Par? && Listed(t.spr) && a.l >= 1
    requires i + |Tokens(t)| <= |ws| && ws[i..i + |Tokens(t)|] == Tokens(t)
    ensures ArgLoop(ws, i, a, false, ctl) == ArgLoop(ws, i + |Tokens(t)|, a, false, ctl)
    decreases t, 0
  {
    var inside := Tokens(t.spr);
    TokensPar(t);
    hide Listed, ArgLoop, Tokens;
    assert Tokens(t) == ["("] + (inside + [")"]);
    Slices(ws, i, ["("], inside, [")"]);
    assert ws[i] == "(" && ws[i + 1 + |inside|] == ")";
    ArgOpen(ws, i, a, ctl);
    InnerArgs(ws, i + 1, t.spr, a.(l := a.l + 1), ctl);
    ArgClose(ws, i + 1 + |inside|, a, ctl);
  }

  lemma {:induction false} InnerPair(ws: Words, i: nat, t: Tree, a: Args, ctl: Ctl)
    requires Binary(t) && Listed(t.car) && Listed(t.cdr) && a.l >= 1
    requires i + |Tokens(t)| <= |ws| && ws[i..i + |Tokens(t)|] == Tokens(t)
    ensures ArgLoop(ws, i, a, false, ctl) == ArgLoop(ws, i + |Tokens(t)|, a, false, ctl)
    decreases t, 0
  {
    hide Listed, ArgLoop, Tokens;
    PairSlices(ws, i, t);
    var j := i + |Tokens(t.car)|;
    InnerArgs(ws, i, t.car, a, ctl);
    InnerWords(ws, j, j + 1, a, ctl);
    InnerArgs(ws, j + 1, t.cdr, a, ctl);
  }

  lemma PairSlices(ws: Words, i: nat, t: Tree)
    requires Binary(t) && i + |Tokens(t)| <= |ws| && ws[i..i + |Tokens(t)|] == Tokens(t)
    ensures |Tokens(t)| == |Tokens(t.car)| + 1 + |Tokens(t.cdr)|
    ensures var j := i + |Tokens(t.car)|;
            && ws[i..j] == Tokens(t.car) && W0(ws[j]) !in "()"
            && ws[j + 1..j + 1 + |Tokens(t.cdr)|] == Tokens(t.cdr)
  {
    var left, right := Tokens(t.car), Tokens(t.cdr);
    TokensBinary(t);
    hide Tokens;
    assert Tokens(t) == left + ([OpOf(t)] + right);
    Slices(ws, i, left, [OpOf(t)], right);
    assert ws[i + |left|] == OpOf(t);
  }

  lemma ArgOpen(ws: Words, i: nat, a: Args, ctl: Ctl)
    requires i < |ws| && ws[i] == "(" && a.l >= 1
    ensures ArgLoop(ws, i, a, false, ctl) == ArgLoop(ws, i + 1, a.(l := a.l + 1), false, ctl)
  {
  }

  lemma ArgClose(ws: Words, i: nat, a: Args, ctl: Ctl)
    requires i < |ws| && ws[i] == ")" && a.l >= 1
    ensures ArgLoop(ws, i, a.(l := a.l + 1), false, ctl) == ArgLoop(ws, i + 1, a, false, ctl)
  {
  }

  /** A parenthesised list: nothing collected, and its place is known. */
  lemma ParArgs(spr: Tree, ctl: Ctl)
    requires Listed(spr)
    ensures var ws := ["("] + Tokens(spr) + [")"];
            ArgLoop(ws, 0, NOARGS, false, ctl) == Go(NOARGS.(lp := Some(1), rp := Some(|ws| - 1)), |ws|)
  {
    var ws := ["("] + Tokens(spr) + [")"];
    var a := NOARGS.(l := 1, lp := Some(1));
    assert ArgLoop(ws, 0, NOARGS, false, ctl) == ArgLoop(ws, 1, a, false, ctl);
    assert ws[1..1 + |Tokens(spr)|] == Tokens(spr);
    InnerArgs(ws, 1, spr, a, ctl);
    assert ws[|ws| - 1] == ")";
  }

  lemma {:induction false} Read2(t: Tree, ctl: Ctl)
    requires Piped(t)
    requires t.Fil? ==> ReadsBack(t.car) && ReadsBack(t.cdr)
    requires Simple(t) ==> forall c :: Syn3(Tokens(t), c) == Ok(t)
    ensures Syn2(Tokens(t), ctl) == Ok(t)
  {
    Levels(t);
    Shape(t);
    if t.Fil? {
      Levels(t.car);
      LevelFree(t.car);
      FoundAt(t, Bar);
      Levels(t.cdr);
      FirstToken(t.cdr);
      var ws, i := Tokens(t), |Tokens(t.car)|;
      assert ws[i + 1] == Tokens(t.cdr)[0];
    } else {
      LevelFree(t);
      NotFound(t, Bar);
    }
  }

  lemma Read1b(t: Tree, ctl: Ctl)
    requires Anded(t)
    requires t.And? ==> ReadsBack(t.car) && ReadsBack(t.cdr)
    requires Piped(t) ==> forall c :: Syn2(Tokens(t), c) == Ok(t)
    ensures Syn1b(Tokens(t), ctl) == Ok(t)
  {
    Levels(t);
    Shape(t);
    if t.And? {
      Levels(t.car);
      LevelFree(t.car);
      FoundAt(t, AndAnd);
    } else {
      LevelFree(t);
      NotFound(t, AndAnd);
    }
  }

  lemma Read1a(t: Tree, ctl: Ctl)
    requires Ored(t)
    requires t.Or? ==> ReadsBack(t.car) && ReadsBack(t.cdr)
    requires Anded(t) ==> forall c :: Syn1b(Tokens(t), c) == Ok(t)
    ensures Syn1a(Tokens(t), ctl) == Ok(t)
  {
    Levels(t);
    Shape(t);
    if t.Or? {
      Levels(t.car);
      LevelFree(t.car);
      FoundAt(t, OrOr);
    } else {
      LevelFree(t);
      NotFound(t, OrOr);
    }
  }

  lemma Read1(t: Tree, ctl: Ctl)
    requires Listed(t)
    requires t.Lst? ==> ReadsBack(t.car) && ReadsBack(t.cdr)
    requires Ored(t) ==> forall c :: Syn1a(Tokens(t), c) == Ok(t)
    ensures Syn1(Tokens(t), ctl) == Ok(t) && Syn0(Tokens(t), ctl) == Ok(t) && Syntax(Tokens(t), ctl) == Ok(t)
  {
    Shape(t);
    TopClear(t);
    FirstToken(t);
    if t.Lst? {
      Levels(t.car);
      LevelFree(t.car);
      FoundAt(t, Semi);
      Shape(t.cdr);
    } else {
      LevelFree(t);
      NotFound(t, Semi);
    }
    assert Syn1(Tokens(t), ctl) == Ok(t);
    assert Syn0(Tokens(t), ctl) == Ok(t);
  }

  /** The parser undoes the printer: the words padd puts out for any command tree of plain
      commands, parentheses, |, &&, || and ; parse back to the same tree. */
  lemma {:induction false} ParseUndoesPrint(t: Tree)
    requires Listed(t)
    ensures ReadsBack(t)
    decreases t
  {
    Shape(t);
    Levels(t);
    if t.Par? {
      ParseUndoesPrint(t.spr);
    } else if Binary(t) {
      ParseUndoesPrint(t.car);
      ParseUndoesPrint(t.cdr);
    }
    hide Syn0, Syn1, Syn1a, Syn1b, Syn2, Syn3, Syntax, Tokens, Listed, Ored, Anded, Piped, Simple;
    forall ctl | Simple(t) ensures Syn3(Tokens(t), ctl) == Ok(t) { Read3(t, ctl); }
    forall ctl | Piped(t) ensures Syn2(Tokens(t), ctl) == Ok(t) { Read2(t, ctl); }
    forall ctl | Anded(t) ensures Syn1b(Tokens(t), ctl) == Ok(t) { Read1b(t, ctl); }
    forall ctl | Ored(t) ensures Syn1a(Tokens(t), ctl) == Ok(t) { Read1a(t, ctl); }
    forall ctl ensures Syn1(Tokens(t), ctl) == Ok(t) && Syn0(Tokens(t), ctl) == Ok(t) && Syntax(Tokens(t), ctl) == Ok(t) { Read1(t, ctl); }
  }

  // ---------------------------------------------------------------- what padd does not print

  /** t & u: t runs in the background, in a subshell if it is a list. u may be missing. */
  lemma AmpRead(t: Tree, u: Tree, ctl: Ctl)
    requires Listed(t) && (u.Null? || Listed(u))
    ensures Syn0(Tokens(t) + (["&"] + Tokens(u)), ctl) ==
            Ok(Lst(match t
                   case Com(av, _, _, _) => Com(av, {FAND, FINT}, None, None)
                   case Par(spr, _, _, _) => Par(spr, {FAND, FINT}, None, None)
                   case Fil(car, cdr, _) => Fil(car, cdr, {FAND, FINT})
                   case _ => Par(t, {FAND, FINT}, None, None), u, {}))
  {
    BackgroundIs(t);
    AmpFound(t, u, ctl);
    hide Tokens, Listed, Scan0, Syn1, Syntax, Background;
  }

  lemma BackgroundIs(t: Tree)
    requires Listed(t)
    ensures Background(t) == match t
                             case Com(av, _, _, _) => Com(av, {FAND, FINT}, None, None)
                             case Par(spr, _, _, _) => Par(spr, {FAND, FINT}, None, None)
                             case Fil(car, cdr, _) => Fil(car, cdr, {FAND, FINT})
                             case _ => Par(t, {FAND, FINT}, None, None)
  {
    NoFlags(t);
    var none: set<Flag> := {};
    assert none + {FAND, FINT} == {FAND, FINT};
  }

  lemma ReadBack(t: Tree, ctl: Ctl)
    requires Listed(t)
    ensures Syn1(Tokens(t), ctl) == Ok(t) && Syntax(Tokens(t), ctl) == Ok(t)
  {
    hide Syn0, Syn1, Syn1a, Syn1b, Syn2, Syn3, Syntax, Tokens, Listed, Ored, Anded, Piped, Simple;
    ParseUndoesPrint(t);
  }

  /** & ends the first part. */
  lemma AmpFound(t: Tree, u: Tree, ctl: Ctl)
    requires Listed(t) && (u.Null? || Listed(u))
    ensures var ws, n := Tokens(t) + (["&"] + Tokens(u)), |Tokens(t)|;
            && n < |ws| && Scan0(ws, 0) == AmpAt(n)
            && Syn1(ws[..n], ctl) == Ok(t) && Syntax(ws[n + 1..], ctl) == Ok(u)
  {
    ReadBack(t, ctl);
    if u.Null? {
      assert Tokens(u) == [] && Syntax([], ctl) == Ok(u);
    } else {
      ReadBack(u, ctl);
    }
    var n, v := |Tokens(t)|, ["&"] + Tokens(u);
    var ws := Tokens(t) + v;
    Scan0Tokens(t, v, 0);
    assert v[1..] == Tokens(u);
    hide Tokens, Listed, Syn1, Syntax;
    assert ws[..n] == Tokens(t) && ws[n + 1..] == Tokens(u);
  }

  lemma NoFlags(t: Tree)
    requires Listed(t)
    ensures t.Com? ==> t.flg == {} && t.lef.None? && t.rit.None?
    ensures t.Par? ==> t.flg == {} && t.lef.None? && t.rit.None?
    ensures t.Fil? ==> t.flg == {}
    ensures !t.Null?
  {
    Shape(t);
  }

  /** The words of the redirections of a command. */
  function RedirWords(flg: set<Flag>, lef: Option<string>, rit: Option<string>): Words {
    (if lef.Some? then [if FHERE in flg then "<<" else "<", lef.value] else [])
    + (if rit.Some? then
         [if FCAT in flg then ">>" else ">"] + (if FDIAG in flg then ["&"] else [])
         + (if FANY in flg then ["!"] else []) + [rit.value]
       else [])
  }

  /** A file name that cannot be taken for something else. */
  predicate NameWord(w: string) { W0(w) !in "<>()" && w != "&" && w != "!" }

  /** A command with redirections is read with the flags and the file names it is written with. */
  lemma RedirectRead(av: Words, flg: set<Flag>, lef: Option<string>, rit: Option<string>)
    requires av != [] && forall w <- av :: PlainWord(w)
    requires (lef.Some? ==> NameWord(lef.value)) && (rit.Some? ==> NameWord(rit.value))
    requires flg <= (if lef.Some? then {FHERE} else {}) + (if rit.Some? then {FCAT, FDIAG, FANY} else {})
    ensures Syn3(av + RedirWords(flg, lef, rit), PLAIN) == Ok(Com(av, flg, lef, rit))
  {
    var ws := av + RedirWords(flg, lef, rit);
    PlainArgs(ws, |av|, 0, NOARGS, Special(ws), PLAIN);
    assert ws[0..|av|] == av && [] + av == av;
    var a := NOARGS.(av := av);
    LeftRead(ws, |av|, a, flg, lef, rit);
  }

  lemma {:induction false} PlainArgs(ws: Words, n: nat, i: nat, a: Args, specp: bool, ctl: Ctl)
    requires i <= n <= |ws| && a.l == 0 && forall m :: 0 <= m < n ==> PlainWord(ws[m])
    ensures ArgLoop(ws, i, a, specp, ctl) == ArgLoop(ws, n, a.(av := a.av + ws[i..n]), specp, ctl)
    decreases n - i
  {
    if i < n {
      var a1 := a.(av := a.av + [ws[i]]);
      PlainArgs(ws, n, i + 1, a1, specp, ctl);
      assert a1.av + ws[i + 1..n] == a.av + ws[i..n];
    } else {
      assert a.av + ws[i..n] == a.av;
    }
  }

  lemma LeftRead(ws: Words, i: nat, a: Args, flg: set<Flag>, lef: Option<string>, rit: Option<string>)
    requires i <= |ws| && ws[i..] == RedirWords(flg, lef, rit) && a.l == 0 && a.lef.None? && a.rit.None? && a.flg == {}
    requires (lef.Some? ==> NameWord(lef.value)) && (rit.Some? ==> NameWord(rit.value))
    requires flg <= (if lef.Some? then {FHERE} else {}) + (if rit.Some? then {FCAT, FDIAG, FANY} else {})
    ensures forall specp :: ArgLoop(ws, i, a, specp, PLAIN) == Go(a.(flg := flg, lef := lef, rit := rit), |ws|)
  {
    if lef.Some? {
      var a1 := a.(flg := if FHERE in flg then {FHERE} else {}, lef := lef);
      assert ws[i] == ws[i..][0] && ws[i + 1] == ws[i..][1];
      assert ws[i + 2..] == RedirWords(flg, None, rit);
      RightRead(ws, i + 2, a1, flg, rit);
      forall specp
        ensures ArgLoop(ws, i, a, specp, PLAIN) == Go(a.(flg := flg, lef := lef, rit := rit), |ws|)
      {
        assert ArgTurn(ws, i, a, specp, PLAIN) == Go(a1, i + 2);
      }
    } else {
      RightRead(ws, i, a, flg, rit);
    }
  }

  lemma RightRead(ws: Words, i: nat, a: Args, flg: set<Flag>, rit: Option<string>)
    requires i <= |ws| && ws[i..] == RedirWords(flg, None, rit) && a.l == 0 && a.rit.None? && a.flg <= {FHERE} && (FHERE in flg <==> FHERE in a.flg)
    requires (rit.Some? ==> NameWord(rit.value)) && flg <= {FHERE} + (if rit.Some? then {FCAT, FDIAG, FANY} else {})
    ensures forall specp :: ArgLoop(ws, i, a, specp, PLAIN) == Go(a.(flg := flg, rit := rit), |ws|)
  {
    if rit.Some? {
      var w := ws[i..];
      assert forall m :: 0 <= m < |w| ==> ws[i + m] == w[m];
      forall specp
        ensures ArgLoop(ws, i, a, specp, PLAIN) == Go(a.(flg := flg, rit := rit), |ws|)
      {
        assert ArgTurn(ws, i, a, specp, PLAIN) == Go(a.(flg := flg, rit := rit), |ws|);
      }
    } else {
      assert flg == a.flg;
    }
  }

  /** Words that neither separate nor bracket. */
  lemma {:induction false} ScanFlat(ws: Words, v: Words, k: Kind)
    requires forall w <- ws :: W0(w) !in "()" && !IsSep(k, w)
    ensures Scan(ws + v, 0, k) == Shift(Scan(v, 0, k), |ws|)
  {
    if ws == [] {
      assert ws + v == v;
    } else {
      assert ws[0] in ws && (ws + v)[1..] == ws[1..] + v;
      ScanFlat(ws[1..], v, k);
    }
  }

  /** A pipe |& takes the diagnostic output too, and then a redirection of the output is allowed,
      which before | alone is ambiguous. */
  lemma PipeRead(av: Words, name: Option<string>, amp: bool, u: Tree)
    requires av != [] && (forall w <- av :: PlainWord(w)) && Piped(u) && (name.Some? ==> PlainWord(name.value) && NameWord(name.value))
    ensures Syn2(av + RedirWords({}, None, name) + ((if amp then ["|", "&"] else ["|"]) + Tokens(u)), PLAIN) ==
            if name.Some? && !amp then Err("Ambiguous output redirect")
            else Ok(Fil(Com(av, {}, None, name), u, if amp then {FDIAG} else {}))
  {
    var left := av + RedirWords({}, None, name);
    Levels(u);
    FirstToken(u);
    UReads(u);
    FlatWords(av, name);
    hide Tokens, Piped, RedirWords, PlainWord;
    PipeSplits(left, amp, Tokens(u));
    PipedCommand(av, name, PLAIN.(out := true, diag := amp));
    assert Syn2(Tokens(u), PLAIN.(inp := true)) == Ok(u);
    hide Syn3, Syn2;
  }

  lemma PipeSplits(left: Words, amp: bool, right: Words)
    requires (forall w <- left :: W0(w) !in "()" && !IsSep(Bar, w)) && right != [] && W0(right[0]) != '&'
    ensures var p1, p2 := Syn3(left, PLAIN.(out := true, diag := amp)), Syn2(right, PLAIN.(inp := true));
            Syn2(left + ((if amp then ["|", "&"] else ["|"]) + right), PLAIN) ==
            if p1.Err? then p1 else if p2.Err? then p2 else Ok(Fil(p1.t, p2.t, if amp then {FDIAG} else {}))
  {
    hide Syn3, Syn2, Scan;
    var ws := left + ((if amp then ["|", "&"] else ["|"]) + right);
    BarFound(left, amp, right);
    BarSplits(ws, |left|);
  }

  lemma BarSplits(ws: Words, i: nat)
    requires Scan(ws, 0, Bar) == At(i) && i + 1 < |ws|
    ensures var amp := W0(ws[i + 1]) == '&';
            var p1 := Syn3(ws[..i], PLAIN.(out := true, diag := amp));
            var p2 := Syn2(ws[if amp then i + 2 else i + 1..], PLAIN.(inp := true));
            Syn2(ws, PLAIN) == if p1.Err? then p1 else if p2.Err? then p2 else Ok(Fil(p1.t, p2.t, if amp then {FDIAG} else {}))
  {
    hide Syn3, Scan;
  }

  lemma UReads(u: Tree)
    requires Piped(u)
    ensures forall ctl :: Syn2(Tokens(u), ctl) == Ok(u)
    ensures Tokens(u) != [] && W0(Tokens(u)[0]) != '&'
  {
    Levels(u);
    FirstToken(u);
    ParseUndoesPrint(u);
  }

  lemma FlatWords(av: Words, name: Option<string>)
    requires (forall w <- av :: PlainWord(w)) && (name.Some? ==> PlainWord(name.value))
    ensures forall w <- av + RedirWords({}, None, name) :: W0(w) !in "()" && !IsSep(Bar, w)
  {
    forall w <- av + RedirWords({}, None, name)
      ensures W0(w) !in "()" && !IsSep(Bar, w)
    {
      assert w in av || (name.Some? && (w == ">" || w == name.value));
    }
  }

  /** Where a pipe sign stands between two parts. */
  lemma BarFound(left: Words, amp: bool, right: Words)
    requires (forall w <- left :: W0(w) !in "()" && !IsSep(Bar, w)) && right != [] && W0(right[0]) != '&'
    ensures var ws, n := left + ((if amp then ["|", "&"] else ["|"]) + right), |left|;
            && Scan(ws, 0, Bar) == At(n) && n + 1 < |ws| && ws[..n] == left && (W0(ws[n + 1]) == '&' <==> amp)
            && (if amp then n + 2 <= |ws| && ws[n + 2..] == right else ws[n + 1..] == right)
  {
    var bar: Words := if amp then ["|", "&"] else ["|"];
    var v := bar + right;
    var ws := left + v;
    ScanFlat(left, v, Bar);
    ScanWord("|", v[1..], 0, Bar);
    assert v == ["|"] + v[1..];
    hide Scan;
    assert ws[|left|..] == v;
    assert ws[|left| + 1] == v[1];
    assert v[|bar|..] == right && ws[|left| + |bar|..] == v[|bar|..];
  }

  lemma PipedCommand(av: Words, name: Option<string>, ctl: Ctl)
    requires av != [] && (forall w <- av :: PlainWord(w)) && (name.Some? ==> NameWord(name.value))
    ensures Syn3(av + RedirWords({}, None, name), ctl) ==
            if name.Some? && ctl.out && !ctl.diag then Err("Ambiguous output redirect") else Ok(Com(av, {}, None, name))
  {
    var ws := av + RedirWords({}, None, name);
    PlainArgs(ws, |av|, 0, NOARGS, Special(ws), ctl);
    assert ws[0..|av|] == av && [] + av == av;
    if name.Some? {
      assert ws[|av|] == ">" && ws[|av| + 1] == name.value && |ws| == |av| + 2;
      LastRedirect(ws, |av|, NOARGS.(av := NOARGS.av + ws[0..|av|]), Special(ws), ctl);
    } else {
      assert ws == av;
    }
    hide ArgTurn, Special;
  }

  lemma LastRedirect(ws: Words, i: nat, a: Args, specp: bool, ctl: Ctl)
    requires i + 2 == |ws| && ws[i] == ">" && NameWord(ws[i + 1]) && a.l == 0 && a.rit.None?
    ensures ArgTurn(ws, i, a, specp, ctl) ==
            if ctl.out && !ctl.diag then Bad("Ambiguous output redirect") else Go(a.(rit := Some(ws[i + 1])), i + 2)
  {
  }

  /** >& takes both outputs, and is ambiguous in front of any pipe. */
  lemma BothRead(av: Words, name: string, ctl: Ctl)
    requires av != [] && (forall w <- av :: PlainWord(w)) && NameWord(name)
    ensures Syn3(av + [">", "&", name], ctl) ==
            if ctl.out || ctl.diag then Err("Ambiguous output redirect") else Ok(Com(av, {FDIAG}, None, Some(name)))
  {
    var ws := av + [">", "&", name];
    PlainArgs(ws, |av|, 0, NOARGS, Special(ws), ctl);
    assert ws[0..|av|] == av && [] + av == av;
    assert ws[|av|] == ">" && ws[|av| + 1] == "&" && ws[|av| + 2] == name && |ws| == |av| + 3;
    BothTurn(ws, |av|, NOARGS.(av := NOARGS.av + ws[0..|av|]), Special(ws), ctl);
    hide ArgTurn, Special;
  }

  lemma BothTurn(ws: Words, i: nat, a: Args, specp: bool, ctl: Ctl)
    requires i + 3 == |ws| && ws[i] == ">" && ws[i + 1] == "&" && NameWord(ws[i + 2]) && a.l == 0 && a.rit.None? && a.flg == {}
    ensures ArgTurn(ws, i, a, specp, ctl) ==
            if ctl.out || ctl.diag then Bad("Ambiguous output redirect") else Go(a.(flg := {FDIAG}, rit := Some(ws[i + 2])), i + 3)
  {
    var none: set<Flag> := {};
    assert none + {FDIAG} == {FDIAG};
  }

  /** A redirection without a file name is an error. */
  lemma NoName(av: Words, op: string, more: Words)
    requires (forall w <- av :: PlainWord(w)) && op in ["<", "<<", ">", ">>"] && (more == [] || W0(more[0]) in "<>()")
    ensures Syn3(av + ([op] + more), PLAIN) == Err("Missing name for redirect")
  {
    var ws := av + ([op] + more);
    PlainArgs(ws, |av|, 0, NOARGS, Special(ws), PLAIN);
    assert ws[|av|] == op && (more != [] ==> ws[|av| + 1] == more[0]);
    BadTurn(ws, |av|, NOARGS.(av := NOARGS.av + ws[0..|av|]), Special(ws));
    hide ArgTurn, Special;
  }

  lemma BadTurn(ws: Words, i: nat, a: Args, specp: bool)
    requires i < |ws| && ws[i] in ["<", "<<", ">", ">>"] && (i + 1 == |ws| || W0(ws[i + 1]) in "<>()") && a.l == 0
    ensures ArgTurn(ws, i, a, specp, PLAIN) == Bad("Missing name for redirect")
  {
  }

  /** After one of these words parentheses are words like others. */
  lemma SpecialRead(ws: Words, ctl: Ctl)
    requires ws != [] && ws[0] in ["exit", "foreach", "if", "@", "set", "switch", "while"] && forall w <- ws :: W0(w) !in "<>"
    ensures Syn3(ws, ctl) == Ok(Com(ws, {}, None, None))
  {
    AllArgs(ws, 0, NOARGS, ctl);
    assert ws[0..] == ws && [] + ws == ws;
  }

  lemma {:induction false} AllArgs(ws: Words, i: nat, a: Args, ctl: Ctl)
    requires i <= |ws| && (forall w <- ws :: W0(w) !in "<>")
    ensures ArgLoop(ws, i, a, true, ctl).Go?
    ensures var b := ArgLoop(ws, i, a, true, ctl).a; b.av == a.av + ws[i..] && b.flg == a.flg && b.lef == a.lef && b.rit == a.rit
    decreases |ws| - i
  {
    if i < |ws| {
      assert ws[i] in ws;
      var a1 := ArgTurn(ws, i, a, true, ctl).a;
      AllArgs(ws, i + 1, a1, ctl);
      assert a.av + [ws[i]] + ws[i + 1..] == a.av + ws[i..];
    } else {
      assert a.av + ws[i..] == a.av;
    }
  }

  // ---------------------------------------------------------------- the loops of the source

  /** The depth after a word. */
  function Depth(w: string, l: int): int {
    if W0(w) == '(' then l + 1 else if W0(w) == ')' then l - 1 else l
  }

  predicate Hits(k: Kind, w: string, l: int) {
    W0(w) != '(' && W0(w) != ')' && IsSep(k, w) && l == 0
  }

  /** Scan by position. */
  function ScanFrom(ws: Words, p: nat, l: int, k: Kind): (r: Where)
    requires p <= |ws|
    decreases |ws| - p
  {
    if p == |ws| then Nowhere
    else if Hits(k, ws[p], l) then At(p)
    else ScanFrom(ws, p + 1, Depth(ws[p], l), k)
  }

  lemma {:induction false} ScanFromIs(ws: Words, p: nat, l: int, k: Kind)
    requires p <= |ws|
    ensures ScanFrom(ws, p, l, k) == Shift(Scan(ws[p..], l, k), p)
    decreases |ws| - p
  {
    if p < |ws| {
      assert ws[p..] == [ws[p]] + ws[p + 1..];
      ScanWord(ws[p], ws[p + 1..], l, k);
      ScanFromIs(ws, p + 1, Depth(ws[p], l), k);
    }
  }

  /** The for loop of syn1, syn1a, syn1b and syn2. */
  method FindSep(ws: Words, k: Kind) returns (r: Where)
    ensures r == Scan(ws, 0, k)
  {
    r := FindFrom(ws, k);
    ScanFromIs(ws, 0, 0, k);
    assert ws[0..] == ws;
  }

  method FindFrom(ws: Words, k: Kind) returns (r: Where)
    ensures r == ScanFrom(ws, 0, 0, k)
  {
    var p: nat, l := 0, 0;
    while p < |ws|
      invariant 0 <= p <= |ws|
      invariant ScanFrom(ws, p, l, k) == ScanFrom(ws, 0, 0, k)
    {
      if W0(ws[p]) == '(' {
        l := l + 1;
      } else if W0(ws[p]) == ')' {
        l := l - 1;
      } else if IsSep(k, ws[p]) && l == 0 {
        return At(p);
      }
      p := p + 1;
    }
    r := Nowhere;
  }

  /** How many words syn0 steps over at p: two for |& and >&. */
  function Stride(ws: Words, p: nat): nat
    requires p < |ws|
  {
    var c := W0(ws[p]);
    if ((c == '|' && W1(ws[p]) != '|') || c == '>') && p + 1 < |ws| && ws[p + 1] == "&" then 2 else 1
  }

  /** Scan0 by position. */
  function Scan0From(ws: Words, p: nat, l: int): (r: Top)
    requires p <= |ws|
    decreases |ws| - p
  {
    if p == |ws| then (if l == 0 then Clear else TooManyOpen)
    else if W0(ws[p]) == ')' && l <= 0 then TooManyClose
    else if Hits(Amp, ws[p], l) then AmpAt(p)
    else Scan0From(ws, p + Stride(ws, p), Depth(ws[p], l))
  }

  lemma {:induction false} Scan0FromIs(ws: Words, p: nat, l: int)
    requires p <= |ws|
    ensures Scan0From(ws, p, l) == Later0(Scan0(ws[p..], l), p)
    decreases |ws| - p
  {
    if p < |ws| {
      var rest := ws[p..];
      assert rest[0] == ws[p] && rest[1..] == ws[p + 1..];
      assert |rest| > 1 ==> rest[1] == ws[p + 1] && rest[2..] == ws[p + 2..];
      Scan0FromIs(ws, p + Stride(ws, p), Depth(ws[p], l));
    }
  }

  /** The for loop of syn0. */
  method FindAmp(ws: Words) returns (r: Top)
    ensures r == Scan0(ws, 0)
  {
    r := FindAmpFrom(ws);
    Scan0FromIs(ws, 0, 0);
    assert ws[0..] == ws;
  }

  method FindAmpFrom(ws: Words) returns (r: Top)
    ensures r == Scan0From(ws, 0, 0)
  {
    var p: nat, l := 0, 0;
    while p < |ws|
      invariant 0 <= p <= |ws|
      invariant Scan0From(ws, p, l) == Scan0From(ws, 0, 0)
    {
      var c := W0(ws[p]);
      if c == '(' {
        l := l + 1;
      } else if c == ')' {
        l := l - 1;
        if l < 0 {
          return TooManyClose;
        }
      } else if (c == '|' && W1(ws[p]) != '|') || c == '>' {
        if p + 1 < |ws| && ws[p + 1] == "&" {
          p := p + 1;
        }
      } else if c == '&' && l == 0 && W1(ws[p]) != '&' {
        return AmpAt(p);
      }
      p := p + 1;
    }
    r := if l == 0 then Clear else TooManyOpen;
  }

  /** What syn3's first loop adds up from word i on: room for the argument vector. */
  function Room(ws: Words, i: nat, l: int, specp: bool): int
    requires i <= |ws|
    decreases |ws| - i
  {
    if i == |ws| then 0
    else
      var w := ws[i];
      if W0(w) == '(' then (if specp then 1 else 0) + Room(ws, i + 1, l + 1, specp)
      else if W0(w) == ')' then (if specp then 1 else 0) + Room(ws, i + 1, l - 1, specp)
      else if W0(w) == '>' || W0(w) == '<' then
        (if l != 0 then (if specp then 1 else 0)
         else if i + 1 == |ws| || RelPar(ws[i + 1]) then 0
         else -1) + Room(ws, i + 1, l, specp)
      else (if !specp && l != 0 then 0 else 1) + Room(ws, i + 1, l, specp)
  }

  /** A redirection takes back no more than the word after it gives. */
  lemma {:induction false} RoomNonNegative(ws: Words, i: nat, l: int, specp: bool)
    requires i <= |ws|
    ensures Room(ws, i, l, specp) >= 0
    decreases |ws| - i
  {
    if i < |ws| {
      var w := ws[i];
      if W0(w) == '(' {
        RoomNonNegative(ws, i + 1, l + 1, specp);
      } else if W0(w) == ')' {
        RoomNonNegative(ws, i + 1, l - 1, specp);
      } else {
        RoomNonNegative(ws, i + 1, l, specp);
        if (W0(w) == '>' || W0(w) == '<') && l == 0 && i + 1 < |ws| && !RelPar(ws[i + 1]) {
          RoomNonNegative(ws, i + 2, l, specp);
        }
      }
    }
  }

  /** One turn of the second loop never stores more than the first loop made room for. */
  lemma TurnFits(ws: Words, i: nat, a: Args, specp: bool, ctl: Ctl)
    requires i < |ws|
    ensures match ArgTurn(ws, i, a, specp, ctl)
            case Bad(_) => true
            case Go(a', next) => |a'.av| + Room(ws, next, a'.l, specp) <= |a.av| + Room(ws, i, a.l, specp)
  {
    var t := ArgTurn(ws, i, a, specp, ctl);
    if t.Go? && a.l == 0 && (W0(ws[i]) == '>' || W0(ws[i]) == '<') {
      RedirectRoom(ws, i, t.next, specp);
      hide Room;
    }
  }

  /** A redirection of up to four words: the sign, &, ! and the name. */
  lemma RedirectRoom(ws: Words, i: nat, next: nat, specp: bool)
    requires i + 2 <= next <= i + 4 && next <= |ws| && (W0(ws[i]) == '>' || W0(ws[i]) == '<')
    requires forall m :: i < m < next ==> !RelPar(ws[m])
    ensures Room(ws, i, 0, specp) >= Room(ws, next, 0, specp)
  {
    PlainRoom(ws, next - 1, specp);
    if next >= i + 3 {
      PlainRoom(ws, next - 2, specp);
    }
    if next >= i + 4 {
      PlainRoom(ws, next - 3, specp);
    }
    assert Room(ws, i, 0, specp) == -1 + Room(ws, i + 1, 0, specp);
  }

  lemma PlainRoom(ws: Words, i: nat, specp: bool)
    requires i < |ws| && !RelPar(ws[i])
    ensures Room(ws, i, 0, specp) == 1 + Room(ws, i + 1, 0, specp)
  {
  }

  method CountRoom(ws: Words, specp: bool) returns (n: int)
    ensures n == Room(ws, 0, 0, specp)
  {
    n := 0;
    var l, p := 0, 0;
    while p < |ws|
      invariant 0 <= p <= |ws|
      invariant n + Room(ws, p, l, specp) == Room(ws, 0, 0, specp)
    {
      var c := W0(ws[p]);
      if c == '(' {
        n, l := if specp then n + 1 else n, l + 1;
      } else if c == ')' {
        n, l := if specp then n + 1 else n, l - 1;
      } else if c == '>' || c == '<' {
        if l != 0 {
          n := if specp then n + 1 else n;
        } else if p + 1 != |ws| && !RelPar(ws[p + 1]) {
          n := n - 1;
        }
      } else if specp || l == 0 {
        n := n + 1;
      }
      p := p + 1;
    }
  }

  /** A turn adds one argument or none. */
  lemma OneArg(ws: Words, i: nat, a: Args, specp: bool, ctl: Ctl)
    requires i < |ws|
    ensures match ArgTurn(ws, i, a, specp, ctl)
            case Bad(_) => true
            case Go(a', _) => a'.av == a.av || (|a'.av| == |a.av| + 1 && a'.av == a.av + [a'.av[|a.av|]])
  {
  }

  /** syn3's loops: the argument vector is an array of the size counted first, which the
      second loop fills without running over it, whatever the words are. */
  method CollectArgs(ws: Words, specp: bool, ctl: Ctl) returns (s: ArgStep)
    ensures s == ArgLoop(ws, 0, NOARGS, specp, ctl)
  {
    hide ArgTurn, Room;
    var room := CountRoom(ws, specp);
    RoomNonNegative(ws, 0, 0, specp);
    if room < 0 {
      room := 0;
    }
    var av := new string[room + 1](_ => "");
    var n, p := 0, 0;
    var a := NOARGS;
    while p < |ws|
      invariant 0 <= p <= |ws| && 0 <= n <= room
      invariant a.av == av[..n]
      invariant n + Room(ws, p, a.l, specp) <= room
      invariant ArgLoop(ws, p, a, specp, ctl) == ArgLoop(ws, 0, NOARGS, specp, ctl)
    {
      TurnFits(ws, p, a, specp, ctl);
      OneArg(ws, p, a, specp, ctl);
      var t := ArgTurn(ws, p, a, specp, ctl);
      if t.Bad? {
        return t;
      }
      RoomNonNegative(ws, t.next, t.a.l, specp);
      ghost var stored := av[..n];
      if |t.a.av| > n {
        av[n] := t.a.av[n];
        n := n + 1;
        assert av[..n] == stored + [t.a.av[n - 1]];
      }
      a, p := t.a, t.next;
    }
    s := Go(a, p);
  }
}
