/**
 The line table of ed (bin/ed/ed.c): an array of words, one for each line, that holds the handle
 of the line, which is even, and in its low bit the mark of the global command. Word 0 is not a
 line; lines are numbered from 1 to dol, and dot is the current line.
 */
module EdTable {
  import opened Options

  /** w &= ~01 */
  function Clear(w: int): (r: int)
    ensures r % 2 == 0 && (r == w || r == w - 1)
  {
    w - w % 2
  }

  predicate Marked(w: int) { w % 2 == 1 }

  /** w |= 01 */
  function SetMark(w: int): (r: int)
    ensures r % 2 == 1 && (r == w || r == w + 1)
  {
    Clear(w) + 1
  }

  // ---------------------------------------------------------------- the table as a sequence

  /** The words of lines 1 to dol, and the current line. */
  datatype Table = Table(lines: seq<int>, dot: nat)

  function Min(a: nat, b: nat): nat { if a < b then a else b }

  predicate Range(a1: nat, a2: nat, dol: nat) { 1 <= a1 <= a2 <= dol }

  /** Lines a1 to a2 taken out. */
  function Without(l: seq<int>, a1: nat, a2: nat): seq<int>
    requires Range(a1, a2, |l|)
  {
    l[..a1 - 1] + l[a2..]
  }

  /** New lines put in after line a. */
  function With(l: seq<int>, a: nat, new_: seq<int>): seq<int>
    requires a <= |l|
  {
    l[..a] + new_ + l[a..]
  }

  function AllClear(l: seq<int>): (r: seq<int>)
    ensures |r| == |l| && forall i :: 0 <= i < |l| ==> r[i] == Clear(l[i])
  {
    seq(|l|, i requires 0 <= i < |l| => Clear(l[i]))
  }

  /** Lines a1 to a2, without marks, after line adt, which is not one of them. */
  function Moved(l: seq<int>, a1: nat, a2: nat, adt: nat): seq<int>
    requires Range(a1, a2, |l|) && adt <= |l| && (adt < a1 || adt > a2)
  {
    var block := AllClear(l[a1 - 1..a2]);
    if adt < a1 then l[..adt] + block + l[adt..a1 - 1] + l[a2..]
    else l[..a1 - 1] + l[a2..adt] + block + l[adt..]
  }

  /** The lines of the table that are not marked. */
  function Unmarked(l: seq<int>): seq<int> {
    if l == [] then []
    else if Marked(l[0]) then Unmarked(l[1..])
    else [l[0]] + Unmarked(l[1..])
  }

  /** The words u are those of l at these places, in order, and the others are marked. */
  ghost predicate Places(l: seq<int>, u: seq<int>, at: seq<nat>) {
    && |at| == |u| && (forall m, n :: 0 <= m < n < |at| ==> at[m] < at[n])
    && (forall n :: 0 <= n < |at| ==> at[n] < |l| && u[n] == l[at[n]])
    && (forall i :: 0 <= i < |l| ==> (i in at <==> l[i] % 2 == 0))
  }

  lemma OnePlace(l: seq<int>, u: seq<int>, at: seq<nat>, w: int)
    requires Places(l, u, at)
    ensures if w % 2 == 1 then Places(l + [w], u, at) else Places(l + [w], u + [w], at + [|l|])
  {
    var l', at' := l + [w], if w % 2 == 1 then at else at + [|l|];
    forall i | 0 <= i < |l'|
      ensures i in at' <==> l'[i] % 2 == 0
    {
      if i < |l| {
        assert i in at' <==> i in at;
      }
    }
  }

  lemma {:induction false} UnmarkedAt(l: seq<int>) returns (at: seq<nat>)
    ensures Places(l, Unmarked(l), at)
    decreases |l|
  {
    at := [];
    if l != [] {
      var n := |l| - 1;
      Snoc(l, n);
      assert l[..n + 1] == l;
      hide Unmarked, Places;
      var before := UnmarkedAt(l[..n]);
      OnePlace(l[..n], Unmarked(l[..n]), before, l[n]);
      at := if l[n] % 2 == 0 then before + [n] else before;
    }
  }

  /** How many lines are marked. */
  function Marks(l: seq<int>): (n: nat)
    ensures n <= |l|
  {
    if l == [] then 0 else (if Marked(l[0]) then 1 else 0) + Marks(l[1..])
  }

  /** Whether the table must grow for the new lines: there is always room for one more line. */
  predicate Grows(handles: seq<int>, dol: nat, nlall: nat) {
    handles != [] && dol + |handles| >= nlall
  }

  class LineTable {
    var table: array<int>
    var dot: nat
    var dol: nat
    var nlall: nat

    /** The word of memory behind the table, whatever it is. */
    var behind: int

    /** The lines named by the k command, by handle; nothing to do with them while anymarks is off. */
    var names: seq<int>
    var anymarks: bool

    /** The table has nlall words, and word dol is one of them. */
    ghost predicate Valid()
      reads this
    {
      dol < nlall == table.Length && dot <= dol
    }

    function Lines(): (l: seq<int>)
      requires dol < table.Length
      reads this`table, this`dol, table
      ensures |l| == dol
    {
      table[1..dol + 1]
    }

    constructor (behind0: int)
      ensures Valid() && Lines() == [] && dot == 0 && nlall == 128 && fresh(table)
      ensures names == seq(26, _ => 0) && !anymarks
    {
      nlall := 128;
      table := new int[128](_ => 0);
      dot, dol, behind := 0, 0, behind0;
      names, anymarks := seq(26, _ => 0), false;
    }

    // -------------------------------------------------------------- delete and append

    /** rdelete: the words after line ad2 are copied down, at least one of them. past says
        whether a word outside the table was read: when the last line of a full table goes. */
    method RDelete(ad1: nat, ad2: nat) returns (ghost past: bool)
      requires Valid() && Range(ad1, ad2, dol)
      modifies this`dot, this`dol, table
      ensures Valid() && Lines() == Without(old(Lines()), ad1, ad2) && dot == Min(ad1, dol)
      ensures past <==> ad2 == old(dol) && old(dol) + 1 == nlall
    {
      ghost var l := Lines();
      past := CopyDown(ad1, ad2 + 1);
      dol := dol - (ad2 + 1 - ad1);
      var a1 := ad1;
      if a1 > dol {
        a1 := dol;
      }
      dot := a1;
      forall k | 0 <= k < dol
        ensures Lines()[k] == l[if k < ad1 - 1 then k else k + (ad2 + 1 - ad1)]
      {
        assert Lines()[k] == table[k + 1];
      }
      WithoutIs(l, Lines(), ad1, ad2);
    }

    /** The loop of rdelete. */
    method CopyDown(ad1: nat, ad2: nat) returns (ghost past: bool)
      requires Valid() && 1 <= ad1 < ad2 <= dol + 1
      modifies table
      ensures forall k :: 0 <= k < ad1 ==> table[k] == old(table[k])
      ensures forall k :: ad1 <= k <= dol - (ad2 - ad1) ==> table[k] == old(table[k + (ad2 - ad1)])
      ensures past <==> ad2 == dol + 1 == nlall
    {
      var a1, a2, more := ad1, ad2, true;
      past := false;
      ghost var d := ad2 - ad1;
      while more
        invariant ad1 <= a1 && a2 == a1 + d && a2 <= dol + 2 && more == (a2 <= dol || a1 == ad1)
        invariant past <==> a1 > ad1 && ad2 >= table.Length
        invariant forall k :: 0 <= k < ad1 ==> table[k] == old(table[k])
        invariant forall k :: ad1 <= k < a1 && k + d < table.Length ==> table[k] == old(table[k + d])
        invariant forall k :: a1 <= k < table.Length ==> table[k] == old(table[k])
        decreases dol + 2 - a2
      {
        past := past || a2 >= table.Length;
        table[a1] := if a2 < table.Length then table[a2] else behind;
        a1, a2 := a1 + 1, a2 + 1;
        more := a2 <= dol;
      }
    }

    /** One turn of append: the line goes behind dot, in a table that has room for it. */
    method AppendOne(tl: int)
      requires Valid()
      modifies this, table
      ensures Valid() && Lines() == With(old(Lines()), old(dot), [tl])
      ensures dot == old(dot) + 1 && dol == old(dol) + 1 && names == old(names) && anymarks == old(anymarks)
      ensures if old(dol) + 1 >= old(nlall) then fresh(table) && nlall > old(nlall) else table == old(table) && nlall == old(nlall)
    {
      hide With;
      if dol + 1 >= nlall {
        Grow();
      }
      InsertAfterDot(tl);
    }

    /** append: each line f gives is stored and its handle put in after dot, which moves on. */
    method Append(handles: seq<int>, a: nat)
      requires Valid() && a <= dol
      modifies this, table
      ensures Valid() && Lines() == With(old(Lines()), a, handles) && dot == a + |handles|
      ensures if Grows(handles, old(dol), old(nlall)) then fresh(table) else table == old(table)
      ensures names == old(names) && anymarks == old(anymarks)
    {
      hide Lines, With;
      ghost var l := Lines();
      dot := a;
      var n := 0;
      WithNone(l, a);
      while n < |handles|
        invariant Valid() && n <= |handles| && dot == a + n
        invariant Lines() == With(l, a, handles[..n]) && dol == old(dol) + n
        invariant if Grows(handles[..n], old(dol), old(nlall)) then fresh(table) else table == old(table) && nlall == old(nlall)
        invariant nlall >= old(nlall) && names == old(names) && anymarks == old(anymarks)
      {
        AppendOne(handles[n]);
        InsertedOne(l, a, handles, n);
        n := n + 1;
      }
      assert handles[..n] == handles;
    }

    /** realloc of the table. */
    method Grow()
      requires Valid()
      modifies this`table, this`nlall, this`behind
      ensures nlall == old(nlall) + 512 && Valid() && dol + 1 < nlall && Lines() == old(Lines()) && fresh(table)
    {
      var bigger := new int[nlall + 512](_ => 0);
      for i := 0 to nlall
        modifies bigger
        invariant forall k :: 0 <= k < i ==> bigger[k] == table[k]
      {
        bigger[i] := table[i];
      }
      table, nlall, behind := bigger, nlall + 512, *;
    }

    method InsertAfterDot(tl: int)
      requires Valid() && dol + 1 < nlall
      modifies this`dot, this`dol, table
      ensures Valid() && dot == old(dot) + 1 && dol == old(dol) + 1 && Lines() == With(old(Lines()), old(dot), [tl])
    {
      ghost var l := Lines();
      dol := dol + 1;
      dot := dot + 1;
      var a1 := dol;
      while a1 > dot
        modifies table
        invariant dot <= a1 <= dol
        invariant forall k :: 0 <= k < a1 ==> table[k] == old(table[k])
        invariant forall k :: a1 < k <= dol ==> table[k] == old(table[k - 1])
      {
        a1 := a1 - 1;
        table[a1 + 1] := table[a1];
      }
      table[dot] := tl;
      InsertedLines(l, Lines(), old(dot), tl);
    }

    // -------------------------------------------------------------- move

    /** reverse: the words from a1 up to, not including, a2 in the opposite order. */
    method Reverse(a10: nat, a20: nat)
      requires 1 <= a10 <= a20 <= table.Length
      modifies table
      ensures forall k :: a10 <= k < a20 ==> table[k] == old(table[a10 + a20 - 1 - k])
      ensures forall k :: 0 <= k < table.Length && (k < a10 || k >= a20) ==> table[k] == old(table[k])
    {
      var a1, a2 := a10, a20;
      while true
        invariant a10 <= a1 && a1 - 1 <= a2 <= a20 && a1 - a10 == a20 - a2
        invariant forall k :: a10 <= k < a1 || a2 <= k < a20 ==> table[k] == old(table[a10 + a20 - 1 - k])
        invariant forall k :: 0 <= k < table.Length && (k < a10 || k >= a20 || a1 <= k < a2) ==> table[k] == old(table[k])
        decreases a2
      {
        a2 := a2 - 1;
        var t := table[a2];
        if a2 <= a1 {
          return;
        }
        table[a2] := table[a1];
        table[a1] := t;
        a1 := a1 + 1;
      }
    }

    /** Three reversals exchange the blocks from p to q and from q to r. */
    method Exchange(p: nat, q: nat, r: nat)
      requires 1 <= p <= q <= r <= table.Length
      modifies table
      ensures table[..] == Exchanged(old(table[..]), p, q, r)
    {
      ghost var w := table[..];
      ThreeReversals(p, q, r);
      ExchangedWords(w, table[..], p, q, r);
    }

    method ThreeReversals(p: nat, q: nat, r: nat)
      requires 1 <= p <= q <= r <= table.Length
      modifies table
      ensures forall k :: p <= k < p + (r - q) ==> table[k] == old(table[k + (q - p)])
      ensures forall k :: p + (r - q) <= k < r ==> table[k] == old(table[k - (r - q)])
      ensures forall k :: 0 <= k < table.Length && (k < p || k >= r) ==> table[k] == old(table[k])
    {
      Reverse(p, q);
      Reverse(q, r);
      Reverse(p, r);
    }

    /** m: lines addr1 to addr2 go after line adt, and dot is on the last of them. The lines to
        be moved lose their marks, also when adt is one of them and the command fails. */
    method Move(addr1: nat, addr2: nat, adt: nat) returns (ok: bool)
      requires Valid() && Range(addr1, addr2, dol) && adt <= dol
      modifies this`dot, table
      ensures Valid() && dol == old(dol)
      ensures ok <==> adt < addr1 || adt > addr2
      ensures ok ==> Lines() == Moved(old(Lines()), addr1, addr2, adt)
      ensures ok ==> dot == if adt < addr1 then adt + (addr2 - addr1 + 1) else adt
      ensures ok ==> var block, was := Lines()[dot - (addr2 - addr1 + 1)..dot], old(Lines())[addr1 - 1..addr2];
                     |block| == |was| && forall j :: 0 <= j < |was| ==> block[j] == was[j] - was[j] % 2
      ensures ok && adt < addr1 ==>
                && Lines()[..adt] == old(Lines())[..adt] && Lines()[addr2..] == old(Lines())[addr2..]
                && Lines()[dot..addr2] == old(Lines())[adt..addr1 - 1]
      ensures ok && adt > addr2 ==>
                && Lines()[..addr1 - 1] == old(Lines())[..addr1 - 1] && Lines()[adt..] == old(Lines())[adt..]
                && Lines()[addr1 - 1..adt - (addr2 - addr1 + 1)] == old(Lines())[addr2..adt]
      ensures !ok ==> dot == old(dot) && Lines() == Unset(old(Lines()), addr1, addr2)
    {
      ghost var l := Lines();
      ClearMarks(addr1, addr2);
      assert Lines() == Unset(l, addr1, addr2);
      hide Moved, Unset, Lines, Clear;
      MoveBlock(addr1, addr2, adt, l);
      ok := adt < addr1 || adt > addr2;
      if ok {
        MovedParts(l, addr1, addr2, adt);
        Cleared(l, Lines(), addr1, addr2, adt, dot);
      }
    }

    method ClearMarks(addr1: nat, addr2: nat)
      requires Valid() && Range(addr1, addr2, dol)
      modifies table
      ensures forall k :: 0 <= k < table.Length ==> table[k] == if addr1 <= k <= addr2 then Clear(old(table[k])) else old(table[k])
    {
      var ad1 := addr1;
      while ad1 <= addr2
        invariant addr1 <= ad1 <= addr2 + 1
        invariant forall k :: 0 <= k < table.Length ==> table[k] == if addr1 <= k < ad1 then Clear(old(table[k])) else old(table[k])
      {
        table[ad1] := Clear(table[ad1]);
        ad1 := ad1 + 1;
      }
    }

    /** The rotation, for a block whose marks are cleared. */
    method MoveBlock(ad1: nat, addr2: nat, adt: nat, ghost l: seq<int>)
      requires Valid() && Range(ad1, addr2, dol) && adt <= dol && |l| == dol && Lines() == Unset(l, ad1, addr2)
      modifies this`dot, table
      ensures Valid() && dol == old(dol)
      ensures adt < ad1 || adt > addr2 ==> Lines() == Moved(l, ad1, addr2, adt)
      ensures adt < ad1 || adt > addr2 ==> dot == if adt < ad1 then adt + (addr2 - ad1 + 1) else adt
      ensures ad1 <= adt <= addr2 ==> dot == old(dot) && Lines() == old(Lines())
    {
      hide Moved, Unset, Exchanged, Lines;
      var ad2 := addr2 + 1;
      if adt < ad1 {
        dot := adt + (ad2 - ad1);
        MovedBack(l, ad1, addr2, adt);
        if adt + 1 == ad1 {
          return;
        }
        ExchangeLines(adt + 1, ad1, ad2);
      } else if adt >= ad2 {
        dot := adt;
        MovedOn(l, ad1, addr2, adt);
        ExchangeLines(ad1, ad2, adt + 1);
      }
    }

    method ExchangeLines(p: nat, q: nat, r: nat)
      requires Valid() && 1 <= p <= q <= r <= dol + 1
      modifies table
      ensures Lines() == Exchanged(old(Lines()), p - 1, q - 1, r - 1)
    {
      hide Exchanged;
      ghost var w := table[..];
      Exchange(p, q, r);
      LinesExchanged(w, p, q, r, dol);
      assert Lines() == table[..][1..dol + 1];
      assert old(Lines()) == w[1..dol + 1];
    }

    // -------------------------------------------------------------- other edits

    /** t: the lines are stored again at the end and rotated to their place. getcopy follows a
        pointer into the table that was there at the start: sources says what line it reads for
        each copy, None when append has moved the table before and the pointer is stale. */
    method Copy(addr1: nat, addr2: nat, adt: nat, copies: seq<int>) returns (ghost sources: seq<Option<int>>)
      requires Valid() && Range(addr1, addr2, dol) && adt <= dol && |copies| == addr2 - addr1 + 1
      modifies this, table
      ensures Valid() && Lines() == With(old(Lines()), adt, copies) && dot == adt + |copies|
      ensures |sources| == |copies|
      ensures forall i :: 0 <= i < |copies| ==> sources[i] == if old(dol) + i < old(nlall) then Some(old(Lines())[addr1 - 1 + i]) else None
      ensures None !in sources <==> old(dol) + |copies| <= old(nlall)
      ensures if Grows(copies, old(dol), old(nlall)) then fresh(table) else table == old(table)
      ensures names == old(names) && anymarks == old(anymarks)
    {
      hide With, Exchanged, Lines;
      ghost var l := Lines();
      var ad1 := dol + 1;
      sources := AppendCopies(addr1, addr2, copies);
      assert sources[|copies| - 1].None? <==> old(dol) + |copies| > old(nlall);
      var ad2 := dol + 1;
      dot := adt + (ad2 - ad1);
      ExchangedEnd(l, copies, adt);
      if adt + 1 == ad1 {
        return;
      }
      ExchangeLines(adt + 1, ad1, ad2);
    }

    /** append with getcopy, behind the last line. */
    method AppendCopies(addr10: nat, addr2: nat, copies: seq<int>) returns (ghost sources: seq<Option<int>>)
      requires Valid() && Range(addr10, addr2, dol) && |copies| == addr2 - addr10 + 1
      modifies this, table
      ensures Valid() && Lines() == With(old(Lines()), old(dol), copies) && dot == dol == old(dol) + |copies|
      ensures |sources| == |copies|
      ensures forall i :: 0 <= i < |copies| ==> sources[i] == if old(dol) + i < old(nlall) then Some(old(Lines())[addr10 - 1 + i]) else None
      ensures if Grows(copies, old(dol), old(nlall)) then fresh(table) else table == old(table)
      ensures names == old(names) && anymarks == old(anymarks)
    {
      hide Lines, With;
      ghost var l, home := Lines(), table;
      var addr1, n := addr10, 0;
      sources := [];
      dot := dol;
      WithNone(l, dol);
      while addr1 <= addr2
        invariant Valid() && addr1 == addr10 + n && n <= |copies| && dot == dol == old(dol) + n
        invariant Lines() == With(l, old(dol), copies[..n])
        invariant table == home <==> !Grows(copies[..n], old(dol), old(nlall))
        invariant if table == home then nlall == old(nlall) else fresh(table) && nlall >= old(nlall)
        invariant names == old(names) && anymarks == old(anymarks)
        invariant |sources| == n
        invariant forall i :: 0 <= i < n ==> sources[i] == if old(dol) + i < old(nlall) then Some(l[addr10 - 1 + i]) else None
      {
        WordOf(addr1);
        Before(l, copies[..n], addr1 - 1);
        sources := sources + [if table == home then Some(table[addr1]) else None];
        addr1 := addr1 + 1;
        AppendOne(copies[n]);
        InsertedOne(l, |l|, copies, n);
        n := n + 1;
      }
      assert copies[..n] == copies;
    }

    lemma WordOf(k: nat)
      requires Valid() && 1 <= k <= dol
      ensures table[k] == Lines()[k - 1]
    {
    }

    /** *a = w */
    method Put(a: nat, w: int)
      requires Valid() && 1 <= a <= dol
      modifies table
      ensures Lines() == old(Lines())[a - 1 := w]
    {
      table[a] := w;
    }

    /** j: the first line becomes the joined one and the others go. */
    method Join(addr1: nat, addr2: nat, joined: int)
      requires Valid() && Range(addr1, addr2, dol)
      modifies this`dot, this`dol, table
      ensures Valid() && Lines() == Joined(old(Lines()), addr1, addr2, joined) && dot == addr1
      ensures Lines() == old(Lines())[..addr1 - 1] + [joined] + old(Lines())[addr2..]
    {
      Put(addr1, joined);
      if addr1 < addr2 {
        ghost var past := RDelete(addr1 + 1, addr2);
      }
      dot := addr1;
    }

    method Replace(a: nat, sub: seq<int>)
      requires Valid() && 1 <= a <= dol && sub != []
      modifies this, table
      ensures Valid() && Lines() == With(old(Lines())[a - 1 := sub[0]], a, sub[1..]) && dot == a + |sub| - 1
      ensures names == old(names) && anymarks == old(anymarks)
      ensures table == old(table) || fresh(table)
    {
      hide With, Lines;
      Put(a, sub[0]);
      Append(sub[1..], a);
    }

    /** The names of a line go over to its new handle. */
    method Rename(w: int, h: int)
      modifies this`names
      ensures names == Renamed(old(names), w, h)
    {
      var k := 0;
      while k < |names|
        invariant k <= |names| == |old(names)|
        invariant forall i :: 0 <= i < |names| ==> names[i] == if i < k && old(names)[i] == w then h else old(names)[i]
      {
        if names[k] == w {
          names := names[k := h];
        }
        k := k + 1;
      }
    }

    /** s: every line of the range that has new text is replaced by its first new line and
        followed by the others, and its names go over to the first. subs[i] is the new text of line
        addr1 + i, [] if it has none. Without any new text it is an error, unless inside global. */
    method Substitute(addr1: nat, addr20: nat, subs: seq<seq<int>>, inglob0: bool) returns (inglob: bool)
      requires Valid() && Range(addr1, addr20, dol) && |subs| == addr20 - addr1 + 1
      modifies this, table
      ensures Valid() && Lines() == Substituted(old(Lines()), addr1, subs)
      ensures dot == SubstDot(old(dot), addr1, subs)
      ensures names == if old(anymarks) then RenamedAll(old(names), old(Lines()), addr1 - 1, subs) else old(names)
      ensures inglob <==> inglob0 || exists i :: 0 <= i < |subs| && subs[i] != []
      ensures anymarks == old(anymarks) && (table == old(table) || fresh(table))
    {
      hide Substituted, With, SubstDot, RenamedAll, Lines, Halfway;
      var a1, addr2, i := addr1, addr20, 0;
      inglob := inglob0;
      ghost var l, d, ns := Lines(), dot, names;
      HalfwayStart(l, addr1, subs, d);
      RenamedStep(ns, l, addr1 - 1, subs, 0);
      while a1 <= addr2
        invariant Valid() && anymarks == old(anymarks) && (table == old(table) || fresh(table))
        invariant i <= |subs| && addr1 <= a1 && addr2 - a1 + 1 == |subs| - i
        invariant Halfway(Lines(), l, addr1, subs, i, a1) && dot == SubstDot(d, addr1, subs[..i])
        invariant names == if anymarks then RenamedAll(ns, l, addr1 - 1, subs[..i]) else ns
        invariant inglob <==> inglob0 || exists k :: 0 <= k < i && subs[k] != []
      {
        HalfwayStep(Lines(), l, addr1, subs, i, a1, d);
        RenamedStep(ns, l, addr1 - 1, subs, i + 1);
        if subs[i] != [] {
          inglob := true;
          SubstOne(a1, subs[i], l[addr1 - 1 + i]);
          var nl := |subs[i]| - 1;
          a1 := a1 + nl;
          addr2 := addr2 + nl;
        }
        a1 := a1 + 1;
        i := i + 1;
      }
      assert subs[..i] == subs;
      HalfwayEnd(Lines(), l, addr1, subs, a1);
    }

    /** One line with new text. */
    method SubstOne(a: nat, sub: seq<int>, ghost w: int)
      requires Valid() && 1 <= a <= dol && sub != [] && Lines()[a - 1] == w
      modifies this, table
      ensures Valid() && Lines() == With(old(Lines())[a - 1 := sub[0]], a, sub[1..]) && dot == a + |sub| - 1
      ensures names == (if old(anymarks) then Renamed(old(names), Clear(w), sub[0]) else old(names)) && anymarks == old(anymarks)
      ensures table == old(table) || fresh(table)
    {
      hide With;
      if anymarks {
        Rename(Clear(table[a]), sub[0]);
      }
      Replace(a, sub);
    }

    // -------------------------------------------------------------- gdelete

    /** gdelete: the marked lines go in one pass. A first pass skips to the first marked line. */
    method GDelete()
      requires Valid() && dol >= 1
      modifies this`dot, this`dol, table
      ensures Valid() && Lines() == Unmarked(old(Lines()))
      ensures dot == GDot(old(Lines()), old(dot))
    {
      hide Unmarked, Marks, DotAfter;
      var a3 := dol;
      var a1 := 1;
      ghost var l := Lines();
      NoLines(l);
      while !Marked(table[a1])
        modifies {}
        invariant 1 <= a1 <= a3
        invariant Unmarked(l[..a1 - 1]) == l[..a1 - 1] && Marks(l[..a1 - 1]) == 0
        decreases a3 - a1
      {
        Snoc(l, a1 - 1);
        if a1 >= a3 {
          assert l[..a1] == l;
          return;
        }
        a1 := a1 + 1;
      }
      Snoc(l, a1 - 1);
      a1 := Squeeze(a1);
      dol := a1 - 1;
      if dot > dol {
        dot := dol;
      }
    }

    method KeepLine(a1: nat, a2: nat)
      requires 1 <= a1 < a2 < table.Length
      modifies table
      ensures table[1..a1 + 1] == old(table[1..a1]) + [old(table[a2])]
      ensures forall k :: a1 < k < table.Length ==> table[k] == old(table[k])
    {
      table[a1] := table[a2];
    }

    /** The second pass. */
    method Squeeze(first: nat) returns (a1: nat)
      requires Valid() && 1 <= first <= dol && Marked(table[first])
      requires var l := Lines(); Unmarked(l[..first]) == l[..first - 1] && Marks(l[..first]) == 1
      modifies this`dot, table
      ensures Marks(old(Lines())) >= 1
      ensures var l := old(Lines()); a1 == |Unmarked(l)| + 1 && a1 <= dol && table[1..a1] == Unmarked(l)
      ensures dot == if Marks(old(Lines())) == 1 then old(dot) else DotAfter(old(Lines()))
    {
      hide Unmarked, DotAfter, Marks;
      ghost var l := Lines();
      a1 := first;
      var a2 := a1 + 1;
      assert table[1..a1] == l[..a1 - 1];
      while a2 <= dol
        modifies this`dot, table
        invariant 1 <= a1 < a2 <= dol + 1 && first < a2
        invariant a1 == |Unmarked(l[..a2 - 1])| + 1 && table[1..a1] == Unmarked(l[..a2 - 1])
        invariant Marks(l[..a2 - 1]) >= 1
        invariant dot == if Marks(l[..a2 - 1]) == 1 then old(dot) else DotAfter(l[..a2 - 1])
        invariant forall k :: a2 <= k <= dol ==> table[k] == l[k - 1]
      {
        Snoc(l, a2 - 1);
        if Marked(table[a2]) {
          a2 := a2 + 1;
          dot := a1;
        } else {
          KeepLine(a1, a2);
          a1, a2 := a1 + 1, a2 + 1;
        }
      }
      assert l[..a2 - 1] == l;
    }

    // -------------------------------------------------------------- global

    function State(): Table
      requires Valid()
      reads this, table
    {
      Table(Lines(), dot)
    }

    /** One command of a command list, with its addresses worked out. */
    method Do(e: Edit) returns (ok: bool)
      requires Valid()
      modifies this, table
      ensures Valid() && (table == old(table) || fresh(table))
      ensures ok == Fits(e, old(dol))
      ensures ok == match e
                    case Insert(a, _) => a <= old(dol)
                    case Delete(a1, a2) => 1 <= a1 <= a2 <= old(dol)
                    case Change(a1, a2, _) => 1 <= a1 <= a2 <= old(dol)
                    case MoveTo(a1, a2, adt) => 1 <= a1 <= a2 <= old(dol) && (adt < a1 || a2 < adt <= old(dol))
                    case CopyTo(a1, a2, adt, copies) => 1 <= a1 <= a2 <= old(dol) && adt <= old(dol) && |copies| == a2 - a1 + 1
                    case JoinLines(a1, a2, _) => 1 <= a1 <= a2 <= old(dol)
                    case Subst(a1, subs) => 1 <= a1 && 1 <= |subs| <= old(dol) - a1 + 1
                    case Undo(a, _) => 1 <= a <= old(dol)
                    case Goto(a) => a <= old(dol)
      ensures ok ==> State() == Apply(old(State()), e)
      ensures ok && e.Insert? ==>
                Lines() == old(Lines())[..e.a] + e.handles + old(Lines())[e.a..] && dot == e.a + |e.handles|
      ensures ok && e.Change? ==>
                Lines() == old(Lines())[..e.a1 - 1] + e.handles + old(Lines())[e.a2..] && dot == e.a1 - 1 + |e.handles|
    {
      hide Without, With, Moved, Joined, Substituted, SubstDot, Lines;
      ok := Fits(e, dol);
      if ok {
        ApplyText(State(), e);
        DoFitting(e);
      }
    }

    method DoFitting(e: Edit)
      requires Valid() && Fits(e, dol)
      modifies this, table
      ensures Valid() && (table == old(table) || fresh(table))
      ensures State() == Apply(old(State()), e)
    {
      hide Without, With, Moved, Joined, Substituted, SubstDot, Unset, Lines;
      match e
      case Insert(a, handles) => Append(handles, a);
      case Delete(a1, a2) =>
        ChangeFits(Lines(), a1, a2);
        ghost var past := RDelete(a1, a2);
      case Change(a1, a2, handles) =>
        ChangeFits(Lines(), a1, a2);
        ghost var past := RDelete(a1, a2);
        Append(handles, a1 - 1);
      case MoveTo(a1, a2, adt) => var moved := Move(a1, a2, adt);
      case CopyTo(a1, a2, adt, copies) => ghost var sources := Copy(a1, a2, adt, copies);
      case JoinLines(a1, a2, joined) => Join(a1, a2, joined);
      case Subst(a1, subs) => var found := Substitute(a1, a1 + |subs| - 1, subs, true);
      case Undo(a, w) =>
        Put(a, w);
        dot := a;
      case Goto(a) => dot := a;
    }

    /** A command list; it stops at the first error. */
    method Commands(es: seq<Edit>) returns (ok: bool)
      requires Valid()
      modifies this, table
      ensures Valid() && (table == old(table) || fresh(table))
      ensures match RunAll(old(State()), es)
              case Some(t) => ok && State() == t
              case None => !ok
    {
      hide Apply;
      var i := 0;
      while i < |es|
        invariant Valid() && (table == old(table) || fresh(table)) && i <= |es|
        invariant RunAll(State(), es[i..]) == RunAll(old(State()), es)
      {
        assert es[i..][0] == es[i] && es[i..][1..] == es[i + 1..];
        ok := Do(es[i]);
        if !ok {
          return;
        }
        i := i + 1;
      }
      ok := true;
    }

    /** The first loop of global: exactly the lines of the range that hit are marked. */
    method MarkLines(addr1: nat, addr2: nat, hit: int -> bool, k: bool)
      requires Valid() && Range(addr1, addr2, dol)
      modifies table
      ensures Valid() && !Marked(table[0])
      ensures Lines() == MarkedLines(old(Lines()), addr1, addr2, hit, k)
      ensures forall i :: 0 <= i < dol ==>
                var w, was := Lines()[i], old(Lines())[i];
                && (w % 2 == 1 <==> addr1 <= i + 1 <= addr2 && hit(was - was % 2) == k)
                && w - w % 2 == was - was % 2
    {
      var a1 := 0;
      while a1 <= dol
        modifies table
        invariant a1 <= dol + 1
        invariant forall j :: a1 <= j < table.Length ==> table[j] == old(table[j])
        invariant forall j :: 1 <= j < a1 ==> table[j] == MarkOf(old(table[j]), addr1 <= j <= addr2 && hit(Clear(old(table[j]))) == k)
        invariant a1 > 0 ==> !Marked(table[0])
      {
        table[a1] := Clear(table[a1]);
        if a1 >= addr1 && a1 <= addr2 && hit(table[a1]) == k {
          table[a1] := SetMark(table[a1]);
        }
        a1 := a1 + 1;
      }
    }

    /** global: the lines are marked, and then the command list runs for the first marked line
        until there is none, or an error ends everything. The list d alone is done by gdelete. */
    method Global(addr1: nat, addr2: nat, hit: int -> bool, k: bool, script: Table -> seq<Edit>, onlyD: bool)
      returns (ok: bool, ghost rounds: nat, ghost kept: seq<nat>)
      requires Valid() && Range(addr1, addr2, dol) && EvenScript(script)
      modifies this, table
      ensures Valid() && (table == old(table) || fresh(table))
      ensures var t := Table(MarkedLines(old(Lines()), addr1, addr2, hit, k), old(dot));
              if onlyD then ok && State() == Table(Unmarked(t.lines), GDot(t.lines, t.dot)) && rounds == 0
              else
                && rounds == Rounds(t, script)
                && match GlobalRun(t, script)
                   case Some(t') => ok && State() == t'
                   case None => !ok
      ensures onlyD ==> |kept| == dol && (forall m, n :: 0 <= m < n < dol ==> kept[m] < kept[n])
      ensures onlyD ==> forall n :: 0 <= n < dol ==>
                kept[n] < old(dol) && Lines()[n] == old(Lines())[kept[n]] - old(Lines())[kept[n]] % 2
      ensures onlyD ==> forall i :: 0 <= i < old(dol) ==>
                (i in kept <==> !(addr1 <= i + 1 <= addr2 && hit(old(Lines())[i] - old(Lines())[i] % 2) == k))
    {
      hide Unmarked;
      MarkLines(addr1, addr2, hit, k);
      if onlyD {
        kept := UnmarkedAt(Lines());
        GDelete();
        return true, 0, kept;
      }
      ok, rounds := GlobalLoop(script);
      kept := [];
    }

    /** The second loop of global. */
    method GlobalLoop(script: Table -> seq<Edit>) returns (ok: bool, ghost rounds: nat)
      requires Valid() && EvenScript(script) && !Marked(table[0])
      modifies this, table
      ensures Valid() && (table == old(table) || fresh(table))
      ensures rounds == Rounds(old(State()), script)
      ensures match GlobalRun(old(State()), script)
              case Some(t) => ok && State() == t
              case None => !ok
    {
      hide GlobalRun, Rounds, RunAll, EvenScript, Marks, Apply;
      rounds := 0;
      ok := true;
      var a1 := 0;
      NoLines(Lines());
      while a1 <= dol
        invariant Valid() && (table == old(table) || fresh(table)) && a1 <= dol + 1
        invariant a1 == 0 ==> !Marked(table[0])
        invariant Marks(Lines()[..if a1 == 0 then 0 else a1 - 1]) == 0
        invariant GlobalRun(State(), script) == GlobalRun(old(State()), script)
        invariant rounds + Rounds(State(), script) == Rounds(old(State()), script)
        decreases Marks(Lines()), dol + 1 - a1
      {
        if Marked(table[a1]) {
          ok := Round(a1, script);
          rounds := rounds + 1;
          if !ok {
            return;
          }
          a1 := 0;
          NoLines(Lines());
        } else if a1 > 0 {
          NoMarks(Lines(), a1);
        }
        a1 := a1 + 1;
      }
      assert Lines()[..dol] == Lines();
      GlobalEnd(State(), script);
    }

    /** One run of the command list, for the first marked line. */
    method Round(a1: nat, script: Table -> seq<Edit>) returns (ok: bool)
      requires Valid() && EvenScript(script) && 1 <= a1 <= dol && Marked(table[a1]) && Marks(Lines()[..a1 - 1]) == 0
      modifies this, table
      ensures Valid() && (table == old(table) || fresh(table))
      ensures if ok then
                && GlobalRun(State(), script) == GlobalRun(old(State()), script)
                && Rounds(old(State()), script) == 1 + Rounds(State(), script)
                && Marks(Lines()) < Marks(old(Lines()))
              else GlobalRun(old(State()), script) == None && Rounds(old(State()), script) == 1
    {
      hide GlobalRun, Rounds, RunAll, EvenScript, Marks, Apply;
      ghost var t := State();
      FirstIs(t.lines, a1 - 1);
      GlobalStep(t, script);
      Put(a1, Clear(table[a1]));
      dot := a1;
      assert State() == Pick(t);
      ok := Commands(script(State()));
    }
  }

  /** The line after the last marked one, once the marked lines are gone. */
  function DotAfter(l: seq<int>): nat
  {
    if l == [] then 0
    else
      var n := |l| - 1;
      if Marked(l[n]) then |Unmarked(l[..n])| + 1 else DotAfter(l[..n])
  }

  /** Where gdelete leaves dot: the first marked line does not move it. */
  function GDot(l: seq<int>, dot: nat): nat {
    var n := |Unmarked(l)|;
    if Marks(l) == 0 then dot
    else if Marks(l) == 1 then Min(dot, n)
    else Min(DotAfter(l), n)
  }

  lemma {:induction false} UnmarkedConcat(a: seq<int>, b: seq<int>)
    ensures Unmarked(a + b) == Unmarked(a) + Unmarked(b)
    ensures Marks(a + b) == Marks(a) + Marks(b)
    decreases |a|
  {
    if a == [] {
      assert a + b == b;
    } else {
      assert (a + b)[1..] == a[1..] + b;
      UnmarkedConcat(a[1..], b);
    }
  }

  lemma NoLines(l: seq<int>)
    ensures Unmarked(l[..0]) == [] == l[..0] && Marks(l[..0]) == 0
    ensures l == [] ==> Marks(l) == 0
  {
  }

  /** One more line. */
  lemma Snoc(l: seq<int>, n: nat)
    requires n < |l|
    ensures l[..n + 1] == l[..n] + [l[n]]
    ensures var p := l[..n + 1];
            if Marked(l[n]) then
              Unmarked(p) == Unmarked(l[..n]) && Marks(p) == Marks(l[..n]) + 1 && DotAfter(p) == |Unmarked(l[..n])| + 1
            else
              Unmarked(p) == Unmarked(l[..n]) + [l[n]] && Marks(p) == Marks(l[..n]) && DotAfter(p) == DotAfter(l[..n])
  {
    var p := l[..n + 1];
    assert p == l[..n] + [l[n]] && p[..n] == l[..n];
    UnmarkedConcat(l[..n], [l[n]]);
  }

  /** Names w becomes h. */
  function Renamed(names: seq<int>, w: int, h: int): (r: seq<int>)
    ensures |r| == |names| && forall i :: 0 <= i < |r| ==> r[i] == if names[i] == w then h else names[i]
  {
    seq(|names|, i requires 0 <= i < |names| => if names[i] == w then h else names[i])
  }

  /** The names after the lines from index at on have got their new text, in order. */
  function RenamedAll(names: seq<int>, l: seq<int>, at: nat, subs: seq<seq<int>>): seq<int>
    requires at + |subs| <= |l|
  {
    if subs == [] then names
    else
      var n := |subs| - 1;
      var before := RenamedAll(names, l, at, subs[..n]);
      if subs[n] == [] then before else Renamed(before, Clear(l[at + n]), subs[n][0])
  }

  lemma RenamedStep(names: seq<int>, l: seq<int>, at: nat, subs: seq<seq<int>>, n: nat)
    requires at + |subs| <= |l| && n <= |subs|
    ensures RenamedAll(names, l, at, subs[..0]) == names
    ensures n > 0 ==> RenamedAll(names, l, at, subs[..n]) ==
                      var before := RenamedAll(names, l, at, subs[..n - 1]);
                      if subs[n - 1] == [] then before else Renamed(before, Clear(l[at + n - 1]), subs[n - 1][0])
  {
    if n > 0 {
      assert subs[..n][..n - 1] == subs[..n - 1];
    }
  }

  function Joined(l: seq<int>, a1: nat, a2: nat, h: int): seq<int>
    requires Range(a1, a2, |l|)
  {
    l[..a1 - 1] + [h] + l[a2..]
  }

  /** The lines that come in place of l: those of subs, or the line itself. */
  function Flat(l: seq<int>, subs: seq<seq<int>>): (r: seq<int>)
    requires |l| == |subs|
    ensures |r| >= |l|
  {
    if l == [] then []
    else Flat(l[..|l| - 1], subs[..|l| - 1]) + if subs[|l| - 1] == [] then [l[|l| - 1]] else subs[|l| - 1]
  }

  function Substituted(l: seq<int>, a1: nat, subs: seq<seq<int>>): seq<int>
    requires 1 <= a1 && a1 - 1 + |subs| <= |l|
  {
    l[..a1 - 1] + Flat(l[a1 - 1..a1 - 1 + |subs|], subs) + l[a1 - 1 + |subs|..]
  }

  function Sum(subs: seq<seq<int>>): nat {
    if subs == [] then 0
    else Sum(subs[..|subs| - 1]) + if subs[|subs| - 1] == [] then 1 else |subs[|subs| - 1]|
  }

  /** The last new line, or the old dot when no line has new text. */
  function SubstDot(dot: nat, a1: nat, subs: seq<seq<int>>): nat {
    if subs == [] then dot
    else if subs[|subs| - 1] == [] then SubstDot(dot, a1, subs[..|subs| - 1])
    else a1 + Sum(subs) - 1
  }

  lemma {:induction false} FlatLength(l: seq<int>, subs: seq<seq<int>>)
    requires |l| == |subs|
    ensures |Flat(l, subs)| == Sum(subs)
    decreases |l|
  {
    if l != [] {
      FlatLength(l[..|l| - 1], subs[..|l| - 1]);
    }
  }

  lemma SubstNone(l: seq<int>, a1: nat, dot: nat, subs: seq<seq<int>>)
    requires 1 <= a1 && a1 - 1 + |subs| <= |l|
    ensures Flat(l[a1 - 1..a1 - 1], subs[..0]) == [] && SubstDot(dot, a1, subs[..0]) == dot
    ensures l == l[..a1 - 1] + [] + l[a1 - 1..]
    ensures Substituted(l, a1, subs) == l[..a1 - 1] + Flat(l[a1 - 1..a1 - 1 + |subs|], subs) + l[a1 - 1 + |subs|..]
  {
  }

  lemma SubstStep(l: seq<int>, a1: nat, dot: nat, subs: seq<seq<int>>, i: nat)
    requires 1 <= a1 && a1 - 1 + |subs| <= |l| && i < |subs|
    ensures var done := Flat(l[a1 - 1..a1 - 1 + i], subs[..i]);
            var next := if subs[i] == [] then [l[a1 - 1 + i]] else subs[i];
            && Flat(l[a1 - 1..a1 - 1 + (i + 1)], subs[..i + 1]) == done + next
            && SubstDot(dot, a1, subs[..i + 1]) == (if subs[i] == [] then SubstDot(dot, a1, subs[..i]) else a1 + |done| + |next| - 1)
            && (subs[i] == [] ==> l[..a1 - 1] + (done + next) + l[a1 - 1 + (i + 1)..] == l[..a1 - 1] + done + l[a1 - 1 + i..])
  {
    var k, s := l[a1 - 1..a1 - 1 + (i + 1)], subs[..i + 1];
    assert k[..i] == l[a1 - 1..a1 - 1 + i] && s[..i] == subs[..i];
    FlatLength(k[..i], s[..i]);
    FlatLength(k, s);
    assert l[a1 - 1 + i..] == [l[a1 - 1 + i]] + l[a1 - 1 + (i + 1)..];
  }

  /** The lines when the first i of the range are done and line a1 is next. */
  ghost predicate Halfway(t: seq<int>, l: seq<int>, addr1: nat, subs: seq<seq<int>>, i: nat, a1: nat) {
    && 1 <= addr1 && addr1 - 1 + |subs| <= |l| && i <= |subs|
    && var done := Flat(l[addr1 - 1..addr1 - 1 + i], subs[..i]);
       a1 == addr1 + |done| && t == l[..addr1 - 1] + done + l[addr1 - 1 + i..]
  }

  lemma HalfwayStart(l: seq<int>, addr1: nat, subs: seq<seq<int>>, d: nat)
    requires 1 <= addr1 && addr1 - 1 + |subs| <= |l|
    ensures Halfway(l, l, addr1, subs, 0, addr1) && SubstDot(d, addr1, subs[..0]) == d
  {
    SubstNone(l, addr1, d, subs);
  }

  lemma HalfwayStep(t: seq<int>, l: seq<int>, addr1: nat, subs: seq<seq<int>>, i: nat, a1: nat, d: nat)
    requires Halfway(t, l, addr1, subs, i, a1) && i < |subs|
    ensures a1 <= |t| && t[a1 - 1] == l[addr1 - 1 + i]
    ensures subs[i] == [] ==>
              Halfway(t, l, addr1, subs, i + 1, a1 + 1) && SubstDot(d, addr1, subs[..i + 1]) == SubstDot(d, addr1, subs[..i])
    ensures subs[i] != [] ==>
              && Halfway(With(t[a1 - 1 := subs[i][0]], a1, subs[i][1..]), l, addr1, subs, i + 1, a1 + |subs[i]|)
              && SubstDot(d, addr1, subs[..i + 1]) == a1 + |subs[i]| - 1
  {
    hide With, SubstDot, Flat;
    var done := Flat(l[addr1 - 1..addr1 - 1 + i], subs[..i]);
    SubstStep(l, addr1, d, subs, i);
    SubstNext(l, addr1, done, i);
    if subs[i] != [] {
      SubstLines(l, addr1, done, i, subs[i]);
    }
  }

  lemma SubstNext(l: seq<int>, a1: nat, done: seq<int>, i: nat)
    requires 1 <= a1 && a1 - 1 + i < |l|
    ensures var t := l[..a1 - 1] + done + l[a1 - 1 + i..]; a1 + |done| <= |t| && t[a1 + |done| - 1] == l[a1 - 1 + i]
  {
  }

  lemma HalfwayEnd(t: seq<int>, l: seq<int>, addr1: nat, subs: seq<seq<int>>, a1: nat)
    requires Halfway(t, l, addr1, subs, |subs|, a1)
    ensures t == Substituted(l, addr1, subs)
  {
    assert subs[..|subs|] == subs;
  }

  lemma SubstLines(l: seq<int>, a1: nat, done: seq<int>, i: nat, sub: seq<int>)
    requires 1 <= a1 && a1 - 1 + i < |l| && sub != []
    ensures var t := l[..a1 - 1] + done + l[a1 - 1 + i..];
            var a := a1 + |done|;
            && a <= |t|
            && t[a - 1] == l[a1 - 1 + i]
            && With(t[a - 1 := sub[0]], a, sub[1..]) == l[..a1 - 1] + (done + sub) + l[a1 - 1 + (i + 1)..]
  {
    var t := l[..a1 - 1] + done + l[a1 - 1 + i..];
    var a := a1 + |done|;
    var u := t[a - 1 := sub[0]];
    assert u[..a] == l[..a1 - 1] + done + [sub[0]];
    assert u[a..] == l[a1 - 1 + (i + 1)..];
    assert sub == [sub[0]] + sub[1..];
  }

  lemma ExchangedEnd(l: seq<int>, copies: seq<int>, adt: nat)
    requires adt <= |l|
    ensures var t := With(l, |l|, copies);
            && |t| == |l| + |copies|
            && Exchanged(t, adt, |l|, |t|) == With(l, adt, copies)
  {
    var t := With(l, |l|, copies);
    assert t == l + copies;
    assert t[..adt] == l[..adt] && t[|l|..|t|] == copies && t[adt..|l|] == l[adt..] && t[|t|..] == [];
  }

  lemma ExchangedWords(w: seq<int>, w': seq<int>, p: nat, q: nat, r: nat)
    requires p <= q <= r <= |w| == |w'|
    requires forall k :: p <= k < p + (r - q) ==> w'[k] == w[k + (q - p)]
    requires forall k :: p + (r - q) <= k < r ==> w'[k] == w[k - (r - q)]
    requires forall k :: 0 <= k < |w| && (k < p || k >= r) ==> w'[k] == w[k]
    ensures w' == Exchanged(w, p, q, r)
  {
    hide Exchanged;
    ExchangedAt(w, p, q, r);
  }

  /** A part of the lines is a part of the words. */
  lemma Part(w: seq<int>, n: nat, i: nat, j: nat)
    requires i <= j <= n < |w|
    ensures w[1..n + 1][i..j] == w[i + 1..j + 1]
  {
    var a, b := w[1..n + 1][i..j], w[i + 1..j + 1];
    assert |a| == |b|;
    forall k | 0 <= k < |a|
      ensures a[k] == b[k]
    {
      assert a[k] == w[1..n + 1][i + k] == w[i + k + 1];
    }
  }

  lemma LinesExchanged(w: seq<int>, p: nat, q: nat, r: nat, n: nat)
    requires 1 <= p <= q <= r <= n + 1 <= |w|
    ensures |Exchanged(w, p, q, r)| == |w|
    ensures Exchanged(w, p, q, r)[1..n + 1] == Exchanged(w[1..n + 1], p - 1, q - 1, r - 1)
  {
    var l := w[1..n + 1];
    Part(w, n, 0, p - 1);
    Part(w, n, q - 1, r - 1);
    Part(w, n, p - 1, q - 1);
    Part(w, n, r - 1, n);
    var a, b, c, d := w[1..p], w[q..r], w[p..q], w[r..n + 1];
    assert l[..p - 1] == a && l[r - 1..] == d;
    assert w[..p] == w[..1] + a && w[r..] == d + w[n + 1..];
    FiveParts(w[..1], a, b, c, d, w[n + 1..], n);
  }

  lemma FiveParts(x: seq<int>, a: seq<int>, b: seq<int>, c: seq<int>, d: seq<int>, y: seq<int>, n: nat)
    requires |x| == 1 && |a| + |b| + |c| + |d| == n
    ensures ((x + a) + b + c + (d + y))[1..n + 1] == a + b + c + d
  {
    var m := a + b + c + d;
    assert (x + a) + b + c + (d + y) == x + (m + y);
    assert (x + (m + y))[1..n + 1] == m;
  }

  /** The blocks from p to q and from q to r exchanged. */
  function Exchanged(l: seq<int>, p: nat, q: nat, r: nat): seq<int>
    requires p <= q <= r <= |l|
  {
    l[..p] + l[q..r] + l[p..q] + l[r..]
  }

  lemma ExchangedAt(l: seq<int>, p: nat, q: nat, r: nat)
    requires p <= q <= r <= |l|
    ensures var s := Exchanged(l, p, q, r);
            && |s| == |l|
            && (forall k :: 0 <= k < p || r <= k < |l| ==> s[k] == l[k])
            && (forall k :: p <= k < p + (r - q) ==> s[k] == l[k + (q - p)])
            && (forall k :: p + (r - q) <= k < r ==> s[k] == l[k - (r - q)])
  {
  }

  lemma MovedBack(l: seq<int>, a1: nat, a2: nat, adt: nat)
    requires Range(a1, a2, |l|) && adt < a1
    ensures Moved(l, a1, a2, adt) == Exchanged(Unset(l, a1, a2), adt, a1 - 1, a2)
    ensures adt + 1 == a1 ==> Moved(l, a1, a2, adt) == Unset(l, a1, a2)
  {
    var u := Unset(l, a1, a2);
    assert u[..adt] == l[..adt];
    assert u[a1 - 1..a2] == AllClear(l[a1 - 1..a2]);
    assert u[adt..a1 - 1] == l[adt..a1 - 1];
    assert u[a2..] == l[a2..];
  }

  lemma MovedOn(l: seq<int>, a1: nat, a2: nat, adt: nat)
    requires Range(a1, a2, |l|) && a2 < adt <= |l|
    ensures Moved(l, a1, a2, adt) == Exchanged(Unset(l, a1, a2), a1 - 1, a2, adt)
  {
    var u := Unset(l, a1, a2);
    assert u[..a1 - 1] == l[..a1 - 1];
    assert u[a1 - 1..a2] == AllClear(l[a1 - 1..a2]);
    assert u[a2..adt] == l[a2..adt];
    assert u[adt..] == l[adt..];
  }

  lemma FourParts(a: seq<int>, b: seq<int>, c: seq<int>, d: seq<int>)
    ensures var s := a + b + c + d;
            && s[..|a|] == a && s[|a|..|a| + |b|] == b && s[|a| + |b|..|a| + |b| + |c|] == c && s[|a| + |b| + |c|..] == d
  {
  }

  /** Where the parts of the table are after a move. */
  ghost predicate InPlace(l: seq<int>, m: seq<int>, a1: nat, a2: nat, adt: nat, dot: nat)
    requires Range(a1, a2, |l|) && adt <= |l| && |m| == |l| && (if adt < a1 then dot == adt + (a2 - a1 + 1) else a2 < adt == dot)
  {
    && m[dot - (a2 - a1 + 1)..dot] == AllClear(l[a1 - 1..a2])
    && (adt < a1 ==> m[..adt] == l[..adt] && m[a2..] == l[a2..] && m[dot..a2] == l[adt..a1 - 1])
    && (adt > a2 ==> m[..a1 - 1] == l[..a1 - 1] && m[adt..] == l[adt..] && m[a1 - 1..adt - (a2 - a1 + 1)] == l[a2..adt])
  }

  lemma MovedParts(l: seq<int>, a1: nat, a2: nat, adt: nat)
    requires Range(a1, a2, |l|) && adt <= |l| && (adt < a1 || adt > a2)
    ensures |Moved(l, a1, a2, adt)| == |l|
    ensures InPlace(l, Moved(l, a1, a2, adt), a1, a2, adt, if adt < a1 then adt + (a2 - a1 + 1) else adt)
  {
    var block := AllClear(l[a1 - 1..a2]);
    if adt < a1 {
      FourParts(l[..adt], block, l[adt..a1 - 1], l[a2..]);
    } else {
      FourParts(l[..a1 - 1], l[a2..adt], block, l[adt..]);
    }
  }

  lemma Cleared(l: seq<int>, m: seq<int>, a1: nat, a2: nat, adt: nat, dot: nat)
    requires Range(a1, a2, |l|) && adt <= |l| && |m| == |l| && (if adt < a1 then dot == adt + (a2 - a1 + 1) else a2 < adt == dot)
    requires InPlace(l, m, a1, a2, adt, dot)
    ensures var n := a2 - a1 + 1;
            var block, was := m[dot - n..dot], l[a1 - 1..a2];
            |block| == |was| == n && forall j :: 0 <= j < n ==> block[j] == was[j] - was[j] % 2
  {
  }

  /** Lines a1 to a2 lose their marks. */
  function Unset(l: seq<int>, a1: nat, a2: nat): (r: seq<int>)
    requires Range(a1, a2, |l|)
    ensures |r| == |l|
    ensures forall k :: 0 <= k < |l| ==> r[k] == if a1 - 1 <= k < a2 then Clear(l[k]) else l[k]
  {
    l[..a1 - 1] + AllClear(l[a1 - 1..a2]) + l[a2..]
  }

  /** New lines in place of lines a1 to a2, or in front of line a1. */
  lemma ChangeText(l: seq<int>, a1: nat, a2: nat, handles: seq<int>)
    requires 1 <= a1 <= a2 + 1 && a2 <= |l|
    ensures With(if a1 <= a2 then Without(l, a1, a2) else l, a1 - 1, handles) == l[..a1 - 1] + handles + l[a2..]
  {
  }

  lemma WithoutIs(l: seq<int>, m: seq<int>, a1: nat, a2: nat)
    requires Range(a1, a2, |l|) && |m| == |l| - (a2 + 1 - a1)
    requires forall k :: 0 <= k < |m| ==> m[k] == l[if k < a1 - 1 then k else k + (a2 + 1 - a1)]
    ensures m == Without(l, a1, a2)
  {
    var s := Without(l, a1, a2);
    assert |s| == |m|;
    forall k | 0 <= k < |m|
      ensures m[k] == s[k]
    {
    }
  }

  lemma InsertedLines(l: seq<int>, m: seq<int>, a: nat, tl: int)
    requires a <= |l| && |m| == |l| + 1 && m[a] == tl
    requires forall k :: 0 <= k < a ==> m[k] == l[k]
    requires forall k :: a < k < |m| ==> m[k] == l[k - 1]
    ensures m == With(l, a, [tl])
  {
    var s := With(l, a, [tl]);
    assert |s| == |m|;
    forall k | 0 <= k < |m|
      ensures m[k] == s[k]
    {
    }
  }

  lemma WithNone(l: seq<int>, a: nat)
    requires a <= |l|
    ensures With(l, a, []) == l
  {
    assert l[..a] + l[a..] == l;
  }

  /** Lines put in at the end leave those before them. */
  lemma Before(l: seq<int>, new_: seq<int>, k: nat)
    requires k < |l|
    ensures |With(l, |l|, new_)| == |l| + |new_| && With(l, |l|, new_)[k] == l[k]
  {
  }

  lemma InsertedOne(l: seq<int>, a: nat, handles: seq<int>, n: nat)
    requires a <= |l| && n < |handles|
    ensures With(With(l, a, handles[..n]), a + n, [handles[n]]) == With(l, a, handles[..n + 1])
  {
    var w := With(l, a, handles[..n]);
    assert w[..a + n] == l[..a] + handles[..n];
    assert w[a + n..] == l[a..];
    assert handles[..n + 1] == handles[..n] + [handles[n]];
  }
  // ---------------------------------------------------------------- command lists

  /** A command that edits the table, with its addresses worked out: a, i and r insert, d deletes,
      c changes, m moves, t copies, j joins, s substitutes, u undoes; the others go to a line. */
  datatype Edit =
    | Insert(a: nat, handles: seq<int>)
    | Delete(a1: nat, a2: nat)
    | Change(a1: nat, a2: nat, handles: seq<int>)
    | MoveTo(a1: nat, a2: nat, adt: nat)
    | CopyTo(a1: nat, a2: nat, adt: nat, copies: seq<int>)
    | JoinLines(a1: nat, a2: nat, joined: int)
    | Subst(a1: nat, subs: seq<seq<int>>)
    | Undo(a: nat, w: int)
    | Goto(a: nat)

  /** The addresses are those of lines. */
  predicate Fits(e: Edit, dol: nat) {
    match e
    case Insert(a, _) => a <= dol
    case Delete(a1, a2) => Range(a1, a2, dol)
    case Change(a1, a2, _) => Range(a1, a2, dol)
    case MoveTo(a1, a2, adt) => Range(a1, a2, dol) && adt <= dol && (adt < a1 || adt > a2)
    case CopyTo(a1, a2, adt, copies) => Range(a1, a2, dol) && adt <= dol && |copies| == a2 - a1 + 1
    case JoinLines(a1, a2, _) => Range(a1, a2, dol)
    case Subst(a1, subs) => 1 <= a1 && subs != [] && a1 + |subs| - 1 <= dol
    case Undo(a, _) => 1 <= a <= dol
    case Goto(a) => a <= dol
  }

  function Apply(t: Table, e: Edit): (r: Table)
    requires Fits(e, |t.lines|)
  {
    var l := t.lines;
    match e
    case Insert(a, handles) => Table(With(l, a, handles), a + |handles|)
    case Delete(a1, a2) => Table(Without(l, a1, a2), Min(a1, |l| - (a2 - a1 + 1)))
    case Change(a1, a2, handles) => Table(With(Without(l, a1, a2), a1 - 1, handles), a1 - 1 + |handles|)
    case MoveTo(a1, a2, adt) => Table(Moved(l, a1, a2, adt), if adt < a1 then adt + (a2 - a1 + 1) else adt)
    case CopyTo(_, _, adt, copies) => Table(With(l, adt, copies), adt + |copies|)
    case JoinLines(a1, a2, joined) => Table(Joined(l, a1, a2, joined), a1)
    case Subst(a1, subs) => Table(Substituted(l, a1, subs), SubstDot(t.dot, a1, subs))
    case Undo(a, w) => Table(l[a - 1 := w], a)
    case Goto(a) => Table(l, a)
  }

  function RunAll(t: Table, es: seq<Edit>): Option<Table>
    decreases |es|
  {
    if es == [] then Some(t)
    else if !Fits(es[0], |t.lines|) then None
    else RunAll(Apply(t, es[0]), es[1..])
  }

  // ---------------------------------------------------------------- marks never grow

  predicate AllEven(hs: seq<int>) { forall h <- hs :: h % 2 == 0 }

  /** Handles come from putline, which gives multiples of 2. */
  predicate Even(e: Edit) {
    match e
    case Insert(_, handles) => AllEven(handles)
    case Change(_, _, handles) => AllEven(handles)
    case CopyTo(_, _, _, copies) => AllEven(copies)
    case JoinLines(_, _, joined) => joined % 2 == 0
    case Subst(_, subs) => forall s <- subs :: AllEven(s)
    case Undo(_, w) => w % 2 == 0
    case _ => true
  }

  ghost predicate EvenScript(script: Table -> seq<Edit>) {
    forall t: Table, e: Edit :: e in script(t) ==> Even(e)
  }

  /** What i and c put in is there, and what c takes out is not. */
  lemma ApplyText(t: Table, e: Edit)
    requires Fits(e, |t.lines|)
    ensures e.Insert? ==> Apply(t, e) == Table(t.lines[..e.a] + e.handles + t.lines[e.a..], e.a + |e.handles|)
    ensures e.Change? ==> Apply(t, e) == Table(t.lines[..e.a1 - 1] + e.handles + t.lines[e.a2..], e.a1 - 1 + |e.handles|)
  {
    if e.Insert? {
      ChangeText(t.lines, e.a + 1, e.a, e.handles);
    } else if e.Change? {
      ChangeText(t.lines, e.a1, e.a2, e.handles);
    }
  }

  lemma {:induction false} NoMarkedNone(l: seq<int>)
    ensures Marks(l) == 0 <==> forall w <- l :: !Marked(w)
  {
    if l != [] {
      NoMarkedNone(l[1..]);
      assert forall w <- l :: w == l[0] || w in l[1..];
    }
  }

  lemma SplitMarks(l: seq<int>, i: nat)
    requires i <= |l|
    ensures Marks(l) == Marks(l[..i]) + Marks(l[i..])
  {
    hide Marks, Unmarked;
    assert l == l[..i] + l[i..];
    UnmarkedConcat(l[..i], l[i..]);
  }

  /** The marks of three parts. */
  lemma ThreeMarks(a: seq<int>, b: seq<int>, c: seq<int>)
    ensures Marks(a + b + c) == Marks(a) + Marks(b) + Marks(c)
  {
    hide Marks, Unmarked;
    UnmarkedConcat(a + b, c);
    UnmarkedConcat(a, b);
  }

  lemma Cut(l: seq<int>, i: nat, j: nat)
    requires i <= j <= |l|
    ensures l == l[..i] + l[i..j] + l[j..]
  {
  }

  lemma CutFour(l: seq<int>, p: nat, q: nat, r: nat)
    requires p <= q <= r <= |l|
    ensures l == l[..p] + l[p..q] + l[q..r] + l[r..]
  {
  }

  lemma SplitThree(l: seq<int>, i: nat, j: nat)
    requires i <= j <= |l|
    ensures Marks(l) == Marks(l[..i]) + Marks(l[i..j]) + Marks(l[j..])
  {
    hide Marks;
    Cut(l, i, j);
    ThreeMarks(l[..i], l[i..j], l[j..]);
  }

  lemma WithMarks(l: seq<int>, a: nat, hs: seq<int>)
    requires a <= |l| && AllEven(hs)
    ensures Marks(With(l, a, hs)) == Marks(l)
  {
    hide Marks;
    ThreeMarks(l[..a], hs, l[a..]);
    NoMarkedNone(hs);
    SplitMarks(l, a);
  }

  lemma WithoutMarks(l: seq<int>, a1: nat, a2: nat)
    requires Range(a1, a2, |l|)
    ensures Marks(Without(l, a1, a2)) <= Marks(l)
  {
    hide Marks;
    UnmarkedConcat(l[..a1 - 1], l[a2..]);
    SplitThree(l, a1 - 1, a2);
  }

  lemma ExchangedMarks(l: seq<int>, p: nat, q: nat, r: nat)
    requires p <= q <= r <= |l|
    ensures Marks(Exchanged(l, p, q, r)) == Marks(l)
  {
    hide Marks;
    var a, b, c, d := l[..p], l[q..r], l[p..q], l[r..];
    UnmarkedConcat(a + b + c, d);
    ThreeMarks(a, b, c);
    SplitFour(l, p, q, r);
  }

  lemma SplitFour(l: seq<int>, p: nat, q: nat, r: nat)
    requires p <= q <= r <= |l|
    ensures Marks(l) == Marks(l[..p]) + Marks(l[p..q]) + Marks(l[q..r]) + Marks(l[r..])
  {
    hide Marks, Unmarked;
    CutFour(l, p, q, r);
    ThreeMarks(l[..p], l[p..q], l[q..r]);
    UnmarkedConcat(l[..p] + l[p..q] + l[q..r], l[r..]);
  }

  lemma ClearMarksNone(l: seq<int>)
    ensures Marks(AllClear(l)) == 0
  {
    var b := AllClear(l);
    forall w <- b
      ensures !Marked(w)
    {
      var i :| 0 <= i < |b| && b[i] == w;
      ClearEven(l[i]);
    }
    NoMarkedNone(b);
  }

  lemma ClearEven(w: int)
    ensures Clear(w) % 2 == 0
  {
  }

  lemma UnsetMarks(l: seq<int>, a1: nat, a2: nat)
    requires Range(a1, a2, |l|)
    ensures Marks(Unset(l, a1, a2)) <= Marks(l)
  {
    hide AllClear, Marks;
    ThreeMarks(l[..a1 - 1], AllClear(l[a1 - 1..a2]), l[a2..]);
    ClearMarksNone(l[a1 - 1..a2]);
    SplitThree(l, a1 - 1, a2);
  }

  lemma MovedMarks(l: seq<int>, a1: nat, a2: nat, adt: nat)
    requires Range(a1, a2, |l|) && adt <= |l| && (adt < a1 || adt > a2)
    ensures Marks(Moved(l, a1, a2, adt)) <= Marks(l)
  {
    hide Moved, Unset, Exchanged, Marks, AllClear;
    var u := Unset(l, a1, a2);
    UnsetMarks(l, a1, a2);
    if adt < a1 {
      MovedBack(l, a1, a2, adt);
      ExchangedMarks(u, adt, a1 - 1, a2);
    } else {
      MovedOn(l, a1, a2, adt);
      ExchangedMarks(u, a1 - 1, a2, adt);
    }
  }

  lemma JoinedMarks(l: seq<int>, a1: nat, a2: nat, h: int)
    requires Range(a1, a2, |l|) && h % 2 == 0
    ensures Marks(Joined(l, a1, a2, h)) <= Marks(l)
  {
    var w := Without(l, a1, a2);
    WithoutMarks(l, a1, a2);
    WithMarks(w, a1 - 1, [h]);
    assert Joined(l, a1, a2, h) == With(w, a1 - 1, [h]);
  }

  lemma {:induction false} FlatMarks(l: seq<int>, subs: seq<seq<int>>)
    requires |l| == |subs| && forall s <- subs :: AllEven(s)
    ensures Marks(Flat(l, subs)) <= Marks(l)
    decreases |l|
  {
    if l != [] {
      var n := |l| - 1;
      FlatMarks(l[..n], subs[..n]);
      SplitMarks(l, n);
      assert l[n..] == [l[n]];
      UnmarkedConcat(Flat(l[..n], subs[..n]), if subs[n] == [] then [l[n]] else subs[n]);
      NoMarkedNone(subs[n]);
      assert AllEven(subs[n]);
    }
  }

  lemma SubstMarks(l: seq<int>, a1: nat, subs: seq<seq<int>>)
    requires 1 <= a1 && a1 - 1 + |subs| <= |l| && forall s <- subs :: AllEven(s)
    ensures Marks(Substituted(l, a1, subs)) <= Marks(l)
  {
    hide Marks, Flat, AllEven, Substituted;
    var a, b := a1 - 1, a1 - 1 + |subs|;
    var p := l[a..b];
    FlatMarks(p, subs);
    SubstNone(l, a1, 0, subs);
    ThreeMarks(l[..a], Flat(p, subs), l[b..]);
    SplitThree(l, a, b);
  }

  lemma PutMarks(l: seq<int>, i: nat, w: int)
    requires i < |l| && w % 2 == 0
    ensures Marks(l[i := w]) == Marks(l) - (if Marked(l[i]) then 1 else 0)
  {
    var m := l[i := w];
    SplitMarks(l, i);
    SplitMarks(m, i);
    assert m[..i] == l[..i] && m[i..][1..] == l[i..][1..];
  }

  /** No command sets a mark. */
  lemma ApplyMarks(t: Table, e: Edit)
    requires Fits(e, |t.lines|) && Even(e)
    ensures Marks(Apply(t, e).lines) <= Marks(t.lines)
  {
    hide With, Without, Moved, Joined, Substituted, Marks;
    var l := t.lines;
    match e
    case Insert(a, handles) => WithMarks(l, a, handles);
    case Delete(a1, a2) => WithoutMarks(l, a1, a2);
    case Change(a1, a2, handles) =>
      WithoutMarks(l, a1, a2);
      ChangeFits(l, a1, a2);
      WithMarks(Without(l, a1, a2), a1 - 1, handles);
    case MoveTo(a1, a2, adt) => MovedMarks(l, a1, a2, adt);
    case CopyTo(_, _, adt, copies) => WithMarks(l, adt, copies);
    case JoinLines(a1, a2, joined) => JoinedMarks(l, a1, a2, joined);
    case Subst(a1, subs) => SubstMarks(l, a1, subs);
    case Undo(a, w) => PutMarks(l, a - 1, w);
    case Goto(a) =>
  }

  lemma ChangeFits(l: seq<int>, a1: nat, a2: nat)
    requires Range(a1, a2, |l|)
    ensures a1 - 1 <= |Without(l, a1, a2)| == |l| - (a2 - a1 + 1)
  {
  }

  lemma {:induction false} RunMarks(t: Table, es: seq<Edit>)
    requires forall e <- es :: Even(e)
    ensures RunAll(t, es).Some? ==> Marks(RunAll(t, es).value.lines) <= Marks(t.lines)
    decreases |es|
  {
    hide Apply, Marks;
    if es != [] && Fits(es[0], |t.lines|) {
      ApplyMarks(t, es[0]);
      RunMarks(Apply(t, es[0]), es[1..]);
    }
  }

  // ---------------------------------------------------------------- the global command

  function MarkOf(w: int, hit: bool): int { if hit then SetMark(w) else Clear(w) }

  function MarkedLines(l: seq<int>, a1: nat, a2: nat, hit: int -> bool, k: bool): (r: seq<int>)
    ensures |r| == |l|
    ensures forall i :: 0 <= i < |l| ==> r[i] == MarkOf(l[i], a1 <= i + 1 <= a2 && hit(Clear(l[i])) == k)
  {
    seq(|l|, i requires 0 <= i < |l| => MarkOf(l[i], a1 <= i + 1 <= a2 && hit(Clear(l[i])) == k))
  }

  /** The index of the first marked line. */
  function FirstMark(l: seq<int>): (i: nat)
    requires Marks(l) > 0
    ensures i < |l| && Marked(l[i]) && forall j :: 0 <= j < i ==> !Marked(l[j])
  {
    if Marked(l[0]) then 0 else 1 + FirstMark(l[1..])
  }

  /** The first marked line loses its mark and becomes current. */
  function Pick(t: Table): (r: Table)
    requires Marks(t.lines) > 0
    ensures Marks(r.lines) == Marks(t.lines) - 1
  {
    var i := FirstMark(t.lines);
    PutMarks(t.lines, i, Clear(t.lines[i]));
    Table(t.lines[i := Clear(t.lines[i])], i + 1)
  }

  /** The command list for the first marked line, again and again. */
  ghost function GlobalRun(t: Table, script: Table -> seq<Edit>): (r: Option<Table>)
    requires EvenScript(script)
    ensures r.Some? ==> Marks(r.value.lines) == 0
    decreases Marks(t.lines)
  {
    if Marks(t.lines) == 0 then Some(t)
    else
      var t1 := Pick(t);
      RunMarks(t1, script(t1));
      match RunAll(t1, script(t1))
      case None => None
      case Some(t2) => GlobalRun(t2, script)
  }

  /** How many times it runs: at most once for every marked line. */
  ghost function Rounds(t: Table, script: Table -> seq<Edit>): (n: nat)
    requires EvenScript(script)
    ensures n <= Marks(t.lines)
    decreases Marks(t.lines)
  {
    if Marks(t.lines) == 0 then 0
    else
      var t1 := Pick(t);
      RunMarks(t1, script(t1));
      match RunAll(t1, script(t1))
      case None => 1
      case Some(t2) => 1 + Rounds(t2, script)
  }

  lemma GlobalStep(t: Table, script: Table -> seq<Edit>)
    requires EvenScript(script) && Marks(t.lines) > 0
    ensures var t1 := Pick(t);
            match RunAll(t1, script(t1))
            case None => GlobalRun(t, script) == None && Rounds(t, script) == 1
            case Some(t2) =>
              && GlobalRun(t, script) == GlobalRun(t2, script) && Rounds(t, script) == 1 + Rounds(t2, script)
              && Marks(t2.lines) < Marks(t.lines)
  {
    hide RunAll, EvenScript;
    var t1 := Pick(t);
    assert forall e <- script(t1) :: Even(e) by { ScriptEven(script, t1); }
    RunMarks(t1, script(t1));
  }

  lemma ScriptEven(script: Table -> seq<Edit>, t: Table)
    requires EvenScript(script)
    ensures forall e <- script(t) :: Even(e)
  {
  }

  lemma GlobalEnd(t: Table, script: Table -> seq<Edit>)
    requires EvenScript(script) && Marks(t.lines) == 0
    ensures GlobalRun(t, script) == Some(t) && Rounds(t, script) == 0
  {
  }

  /** Line i is the first marked one. */
  lemma FirstIs(l: seq<int>, i: nat)
    requires i < |l| && Marked(l[i]) && Marks(l[..i]) == 0
    ensures Marks(l) > 0 && FirstMark(l) == i
  {
    NoMarkedNone(l);
    NoMarkedNone(l[..i]);
    assert l[i] in l;
    forall j | 0 <= j < i
      ensures !Marked(l[j])
    {
      assert l[..i][j] in l[..i];
    }
  }

  /** The lines before and including a line without a mark. */
  lemma NoMarks(l: seq<int>, a: nat)
    requires a <= |l| && (a > 0 ==> !Marked(l[a - 1]) && Marks(l[..a - 1]) == 0)
    ensures Marks(l[..a]) == 0
  {
    if a > 0 {
      Snoc(l, a - 1);
    }
  }

  // ---------------------------------------------------------------- gdelete and repeated deletes

  /** What the global loop does for the command list d: the first marked line is deleted. */
  function DeleteFirst(t: Table): Table
    requires Marks(t.lines) > 0
  {
    var i := FirstMark(t.lines) + 1;
    Table(Without(t.lines, i, i), Min(i, |t.lines| - 1))
  }

  lemma DeleteFirstMarks(t: Table)
    requires Marks(t.lines) > 0
    ensures var t' := DeleteFirst(t);
            Marks(t'.lines) == Marks(t.lines) - 1 && Unmarked(t'.lines) == Unmarked(t.lines)
  {
    var i := FirstMark(t.lines);
    UnmarkedConcat(t.lines[..i], t.lines[i + 1..]);
    assert t.lines == t.lines[..i] + ([t.lines[i]] + t.lines[i + 1..]);
    UnmarkedConcat(t.lines[..i], [t.lines[i]] + t.lines[i + 1..]);
    assert ([t.lines[i]] + t.lines[i + 1..])[1..] == t.lines[i + 1..];
  }

  /** One delete for every mark. */
  function DeleteEach(t: Table): Table
    decreases Marks(t.lines)
  {
    if Marks(t.lines) == 0 then t
    else
      DeleteFirstMarks(t);
      DeleteEach(DeleteFirst(t))
  }

  function DeleteDot(): Table -> seq<Edit> {
    (t: Table) => [Delete(t.dot, t.dot)]
  }

  /** The loop of global with the list d is one delete for every mark. */
  lemma {:induction false} GlobalDeletes(t: Table)
    ensures GlobalRun(t, DeleteDot()) == Some(DeleteEach(t))
    decreases Marks(t.lines)
  {
    if Marks(t.lines) > 0 {
      var t1 := Pick(t);
      var i := FirstMark(t.lines);
      DeleteFirstMarks(t);
      GlobalStep(t, DeleteDot());
      assert Without(t1.lines, i + 1, i + 1) == Without(t.lines, i + 1, i + 1);
      assert DeleteDot()(t1) == [Delete(i + 1, i + 1)];
      RunOne(t1, Delete(i + 1, i + 1));
      assert RunAll(t1, DeleteDot()(t1)) == Some(DeleteFirst(t));
      GlobalDeletes(DeleteFirst(t));
    }
  }

  lemma RunOne(t: Table, e: Edit)
    requires Fits(e, |t.lines|)
    ensures RunAll(t, [e]) == Some(Apply(t, e))
  {
    hide Apply;
    assert RunAll(Apply(t, e), []) == Some(Apply(t, e));
  }

  /** The first mark does not matter for where the last one leaves dot. */
  lemma {:induction false} DotAfterFirst(a: seq<int>, w: int, b: seq<int>)
    requires Marked(w) && Marks(b) > 0
    ensures DotAfter(a + [w] + b) == DotAfter(a + b)
    decreases |b|
  {
    hide Unmarked, Marks;
    NoLines(b);
    if b != [] {
      var n := |b| - 1;
      var c := b[..n];
      Snoc(b, n);
      assert b[..n + 1] == b == c + [b[n]];
      DotAfterSnoc(a + [w], c, b[n]);
      DotAfterSnoc(a, c, b[n]);
      if Marked(b[n]) {
        ThreeMarks(a, [w], c);
        UnmarkedConcat(a + [w], c);
        UnmarkedConcat(a, [w]);
        UnmarkedConcat(a, c);
        OneMarked(w);
      } else {
        DotAfterFirst(a, w, c);
      }
    }
  }

  lemma OneMarked(w: int)
    ensures Marked(w) ==> Unmarked([w]) == [] && Marks([w]) == 1
  {
  }

  /** DotAfter, from the last line. */
  lemma DotAfterSnoc(a: seq<int>, c: seq<int>, x: int)
    ensures DotAfter(a + (c + [x])) == if Marked(x) then |Unmarked(a + c)| + 1 else DotAfter(a + c)
  {
    hide Unmarked;
    var s := a + (c + [x]);
    assert s[..|s| - 1] == a + c && s[|s| - 1] == x;
  }

  lemma {:induction false} DotAfterOnly(a: seq<int>, w: int, b: seq<int>)
    requires Marked(w) && Marks(b) == 0
    ensures DotAfter(a + [w] + b) == |Unmarked(a)| + 1
    decreases |b|
  {
    hide Unmarked, Marks;
    if b == [] {
      assert a + [w] + b == a + ([] + [w]) && a + [] == a;
      DotAfterSnoc(a, [], w);
    } else {
      var n := |b| - 1;
      Snoc(b, n);
      assert b[..n + 1] == b == b[..n] + [b[n]];
      DotAfterSnoc(a + [w], b[..n], b[n]);
      DotAfterOnly(a, w, b[..n]);
    }
  }

  /** The table around its first mark. */
  lemma AroundFirst(l: seq<int>)
    requires Marks(l) > 0
    ensures var i := FirstMark(l);
            && l == l[..i] + [l[i]] + l[i + 1..] && Without(l, i + 1, i + 1) == l[..i] + l[i + 1..]
            && Marks(l[..i]) == 0 && Marks(l[i + 1..]) == Marks(l) - 1
            && |Unmarked(l[..i])| == i
  {
    var i := FirstMark(l);
    var a, b := l[..i], l[i + 1..];
    assert l == a + [l[i]] + b;
    NoMarkedNone(a);
    AllKept(a);
    UnmarkedConcat(a + [l[i]], b);
    UnmarkedConcat(a, [l[i]]);
  }

  lemma {:induction false} DeleteEachIs(t: Table)
    ensures DeleteEach(t).lines == Unmarked(t.lines)
    ensures DeleteEach(t).dot == if Marks(t.lines) == 0 then t.dot else Min(DotAfter(t.lines), |Unmarked(t.lines)|)
    decreases Marks(t.lines)
  {
    hide DotAfter;
    var l := t.lines;
    if Marks(l) == 0 {
      AllKept(l);
    } else {
      var d := DeleteFirst(t);
      var i := FirstMark(l);
      DeleteFirstMarks(t);
      DeleteEachIs(d);
      AroundFirst(l);
      UnmarkedLength(l);
      if Marks(l) == 1 {
        DotAfterOnly(l[..i], l[i], l[i + 1..]);
      } else {
        DotAfterFirst(l[..i], l[i], l[i + 1..]);
      }
    }
  }

  /** gdelete leaves the same lines as a delete for every marked line. The current line is the
      same exactly when more than one line was marked, or none, or dot was already where a single
      delete leaves it: the first marked line does not set dot. */
  lemma GDeleteIsDeleteEach(t: Table)
    ensures DeleteEach(t).lines == Unmarked(t.lines)
    ensures DeleteEach(t).dot == GDot(t.lines, t.dot) <==>
              (Marks(t.lines) != 1 || Min(FirstMark(t.lines) + 1, |t.lines| - 1) == Min(t.dot, |t.lines| - 1))
  {
    hide DotAfter, DeleteEach;
    var l := t.lines;
    DeleteEachIs(t);
    UnmarkedLength(l);
    if Marks(l) == 1 {
      AroundFirst(l);
      DotAfterOnly(l[..FirstMark(l)], l[FirstMark(l)], l[FirstMark(l) + 1..]);
    }
  }

  /** Three lines, the second marked, dot on the first: gdelete leaves dot there, a delete does not. */
  lemma GDeleteLeavesDot()
    ensures var t := Table([2, 5, 6], 1);
            Marks(t.lines) == 1 && GDot(t.lines, t.dot) == 1 && DeleteEach(t).dot == 2
  {
    hide DeleteEach, DotAfter;
    var l := [2, 5, 6];
    assert l[1..] == [5, 6] && [5, 6][1..] == [6] && [6][1..] == [];
    assert Marks(l) == 1 && |Unmarked(l)| == 2;
    GDeleteIsDeleteEach(Table(l, 1));
    DeleteEachIs(Table(l, 1));
    assert l == [2] + [5] + [6];
    DotAfterOnly([2], 5, [6]);
  }

  lemma {:induction false} AllKept(l: seq<int>)
    requires Marks(l) == 0
    ensures Unmarked(l) == l
  {
    if l != [] {
      AllKept(l[1..]);
    }
  }

  lemma {:induction false} UnmarkedLength(l: seq<int>)
    ensures |Unmarked(l)| == |l| - Marks(l)
  {
    if l != [] {
      UnmarkedLength(l[1..]);
    }
  }

  /** A table as first allocated, with as many lines as it takes: deleting the last line reads the
      word behind it. */
  method ReadPast(behind: int) returns (t: LineTable, ghost past: bool)
    ensures fresh(t) && t.nlall == 128 && past && t.Valid() && t.dol == 126
  {
    t := new LineTable(behind);
    t.Append(seq(127, _ => 2), 0);
    past := t.RDelete(127, 127);
  }

  /** t of the first two lines of a table that has no room for one more: the second is read from
      the table that was given back. */
  method CopyStale(behind: int) returns (t: LineTable, ghost sources: seq<Option<int>>)
    ensures fresh(t) && t.Valid() && t.dol == 129 && sources == [Some(2), None]
  {
    t := new LineTable(behind);
    t.Append(seq(127, _ => 2), 0);
    sources := t.Copy(1, 2, 127, [4, 6]);
  }
}
