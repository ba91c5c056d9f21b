/**
 The rotor machine of ed (bin/ed/ed.c): CrInit fills the three 256-entry tables from a
 pseudo-random sequence, and CrBlock transforms a buffer in place.

 The tables hold bytes; every use in the source masks its operand with 0377, so a byte is
 modelled as its value modulo 256.
 */
module EdCrypt {
  import opened Bytes
  import opened Collections

  /** The values of the three tables: a permutation, its inverse and the reflector. */
  datatype Rotors = Rotors(t1: seq<Byte>, t2: seq<Byte>, t3: seq<Byte>) {
    ghost predicate Sized() {
      |t1| == 256 && |t2| == 256 && |t3| == 256
    }

    /** t1 and t2 are inverse permutations, and t3 pairs every index with a different one. */
    ghost predicate Good() {
      && Sized()
      && (forall i :: 0 <= i < 256 ==> t2[t1[i]] == i)
      && (forall i :: 0 <= i < 256 ==> t1[t2[i]] == i)
      && (forall i :: 0 <= i < 256 ==> t3[t3[i]] == i)
      && (forall i :: 0 <= i < 256 ==> t3[i] != i)
    }
  }

  ghost predicate Inverse(t: seq<Byte>, inv: seq<Byte>) {
    && |t| == 256 && |inv| == 256
    && (forall i :: 0 <= i < 256 ==> inv[t[i]] == i)
    && (forall i :: 0 <= i < 256 ==> t[inv[i]] == i)
  }

  function Swap(t: seq<Byte>, i: int, j: int): (r: seq<Byte>)
    requires 0 <= i < |t| && 0 <= j < |t|
    ensures |r| == |t|
  {
    t[i := t[j]][j := t[i]]
  }

  lemma SwapKeepsInverse(t: seq<Byte>, inv: seq<Byte>, i: int, j: int)
    requires Inverse(t, inv) && 0 <= i < 256 && 0 <= j < 256
    ensures Inverse(Swap(t, i, j), Swap(inv, t[i], t[j]))
  {
  }

  /** The state of the reflector when indices above k are done and `free` are still unpaired.
      Zero is both the mark of an unpaired entry and a legal partner, which is harmless
      because only entries up to k are ever looked at. */
  ghost predicate Pairing(t3: seq<Byte>, free: set<int>, k: int) {
    && |t3| == 256
    && |free| % 2 == 0
    && (forall i :: i in free ==> 0 <= i <= k)
    && (forall i :: 0 <= i <= k && i < 256 ==> (t3[i] == 0 <==> i in free))
    && (forall i :: 0 <= i < 256 && i !in free ==> t3[i] !in free && t3[t3[i]] == i && t3[i] != i)
    && (forall i :: 0 <= i <= k && i < 256 && i !in free ==> t3[i] > k)
  }

  lemma PairingStart(t3: seq<Byte>, free: set<int>)
    requires |t3| == 256 && (forall i :: 0 <= i < 256 ==> t3[i] == 0)
    requires free == Below(256)
    ensures Pairing(t3, free, 255)
  {
    hide Below;
  }

  ghost function Below(n: nat): (s: set<int>)
    ensures |s| == n
    ensures forall i :: i in s <==> 0 <= i < n
  {
    if n == 0 then {} else Below(n - 1) + {n - 1}
  }

  /** The parity argument: an unpaired k leaves another unpaired index below it, so in
      particular index 0 is never unpaired when its turn comes. */
  lemma AnotherFree(t3: seq<Byte>, free: set<int>, k: int) returns (u: int)
    requires 0 <= k < 256 && Pairing(t3, free, k) && t3[k] == 0
    ensures 0 <= u < k && t3[u] == 0
  {
    var rest := free - {k};
    assert k in free;
    assert free == rest + {k};
    assert |rest| == |free| - 1;
    u := Choose(rest);
  }

  lemma PairStep(t3: seq<Byte>, free: set<int>, k: int, ic: int)
    requires 0 <= ic < k < 256 && Pairing(t3, free, k) && t3[k] == 0 && t3[ic] == 0
    ensures Pairing(t3[k := ic][ic := k], free - {k, ic}, k - 1)
  {
    var free' := free - {k, ic};
    assert free == free' + {k, ic};
    assert |free| == |free'| + |{k, ic}|;
    var t := t3[k := ic][ic := k];
    forall i | 0 <= i < 256 && i !in free'
      ensures t[i] !in free' && t[t[i]] == i && t[i] != i
    {
    }
  }

  lemma PairSkip(t3: seq<Byte>, free: set<int>, k: int)
    requires 0 <= k < 256 && Pairing(t3, free, k) && t3[k] != 0
    ensures Pairing(t3, free, k - 1)
  {
  }

  /** The remainder, which the source may only take by a non-zero k. */
  function Rem(x: nat, k: nat): (r: nat)
    requires k > 0
    ensures r == x % k < k
    ensures x < k ==> r == x
    ensures x == k ==> r == 0
  {
    x % k
  }

  /** How far the probe, walking upwards modulo k, still is from the index u. */
  function Distance(ic: int, u: int, k: int): (d: int)
    requires 0 <= ic < k && 0 <= u < k
    ensures 0 <= d
  {
    if ic <= u then u - ic else u + k - ic
  }

  /** The first table after i turns: from the top down, an entry changes places with one that is
      not above it. */
  ghost function Shuffled(random: seq<nat>, i: nat): (t: seq<Byte>)
    requires i <= |random| == 256
    ensures |t| == 256
  {
    if i == 0 then seq(256, j requires 0 <= j < 256 => j)
    else
      var t, k := Shuffled(random, i - 1), 256 - i;
      var ic := random[i - 1] % 256 % (k + 1);
      t[k := t[ic]][ic := t[k]]
  }

  /** Walking upwards modulo k, a probe that starts at `from` passes only paired entries before ic. */
  ghost predicate Passed(t3: seq<Byte>, from: int, ic: int, k: int)
    requires k <= |t3|
  {
    forall j :: 0 <= j < k && (if from <= ic then from <= j < ic else j >= from || j < ic) ==> t3[j] != 0
  }

  /** One turn for the reflector: an unpaired k is paired with the first unpaired entry of the probe. */
  ghost predicate Paired(t: seq<Byte>, t': seq<Byte>, k: int, random: nat)
    requires 0 <= k < |t| == 256
  {
    if t[k] != 0 then t' == t
    else k > 0 && exists ic: Byte :: ic < k && t[ic] == 0 && Passed(t, random / 256 % 256 % k, ic, k) && t' == t[k := ic][ic := k]
  }

  /** The body of crinit once the pseudo-random values are known. For every such sequence
      both remainders have a non-zero divisor, the probe loop ends and the tables are good.
      turns are the states the reflector goes through. */
  method CrInit(random: seq<nat>, t1: array<Byte>, t2: array<Byte>, t3: array<Byte>) returns (ghost turns: seq<seq<Byte>>)
    requires |random| == 256
    requires t1.Length == 256 && t2.Length == 256 && t3.Length == 256
    requires t1 != t2 && t1 != t3 && t2 != t3
    modifies t1, t2, t3
    ensures Rotors(t1[..], t2[..], t3[..]).Good()
    ensures t1[..] == Shuffled(random, 256)
    ensures |turns| == 257 && (forall j :: 0 <= j < 256 ==> |turns[j]| == 256 && Paired(turns[j], turns[j + 1], 255 - j, random[j]))
    ensures (forall j :: 0 <= j < 256 ==> turns[0][j] == 0) && t3[..] == turns[256]
  {
    hide Paired, Shuffled, Pairing, Inverse, Swap;
    ghost var inv, free := Fill(t1, t3);
    var i := 0;
    turns := [t3[..]];
    ShuffledStep(random, 0);
    while i < 256
      invariant 0 <= i <= 256
      invariant t1[..] == Shuffled(random, i) && |turns| == i + 1 && turns[i] == t3[..]
      invariant |turns[0]| == 256 && forall j :: 0 <= j < 256 ==> turns[0][j] == 0
      invariant forall j :: 0 <= j < i ==> |turns[j]| == 256 && Paired(turns[j], turns[j + 1], 255 - j, random[j])
      invariant Inverse(t1[..], inv)
      invariant Pairing(t3[..], free, 255 - i)
    {
      ShuffledStep(random, i);
      inv, free := InitTurn(random[i], t1, t3, 255 - i, inv, free);
      turns := turns + [t3[..]];
      i := i + 1;
    }
    Invert(t1, t2, inv);
    TablesGood(t1[..], t2[..], t3[..], free);
  }

  lemma TablesGood(t1: seq<Byte>, t2: seq<Byte>, t3: seq<Byte>, free: set<int>)
    requires Inverse(t1, t2) && Pairing(t3, free, -1)
    ensures Rotors(t1, t2, t3).Good()
  {
  }

  /** One turn of crinit. */
  method InitTurn(random: nat, t1: array<Byte>, t3: array<Byte>, k: int, ghost inv0: seq<Byte>, ghost free0: set<int>)
    returns (ghost inv: seq<Byte>, ghost free: set<int>)
    requires t1.Length == 256 && t3.Length == 256 && t1 != t3 && 0 <= k < 256
    requires Inverse(t1[..], inv0) && Pairing(t3[..], free0, k)
    modifies t1, t3
    ensures t1[..] == Swap(old(t1[..]), k, random % 256 % (k + 1)) && Inverse(t1[..], inv)
    ensures Paired(old(t3[..]), t3[..], k, random) && Pairing(t3[..], free, k - 1)
  {
    hide Paired, Pairing;
    var ic := Rem(random % 256, k + 1);
    SwapKeepsInverse(t1[..], inv0, k, ic);
    ghost var next := Swap(t1[..], k, ic);
    inv := Swap(inv0, t1[k], t1[ic]);
    var temp := t1[k];
    t1[k] := t1[ic];
    t1[ic] := temp;
    assert t1[..] == next;
    free := free0;
    if t3[k] == 0 {
      free := Pair(random, t3, k, free);
    } else {
      PairSkip(t3[..], free, k);
      NotPaired(t3[..], k, random);
    }
  }

  lemma ShuffledStep(random: seq<nat>, i: nat)
    requires i <= |random| == 256
    ensures Shuffled(random, 0) == seq(256, j requires 0 <= j < 256 => j)
    ensures i < 256 ==> Shuffled(random, i + 1) == Swap(Shuffled(random, i), 255 - i, random[i] % 256 % (256 - i))
  {
  }

  lemma NotPaired(t: seq<Byte>, k: int, random: nat)
    requires 0 <= k < |t| == 256 && t[k] != 0
    ensures Paired(t, t, k, random)
  {
  }

  lemma Identity(t: seq<Byte>)
    requires |t| == 256 && forall j :: 0 <= j < 256 ==> t[j] == j
    ensures Inverse(t, t) && t == seq(256, j requires 0 <= j < 256 => j)
  {
  }

  method Fill(t1: array<Byte>, t3: array<Byte>) returns (ghost inv: seq<Byte>, ghost free: set<int>)
    requires t1.Length == 256 && t3.Length == 256 && t1 != t3
    modifies t1, t3
    ensures Inverse(t1[..], inv) && Pairing(t3[..], free, 255)
    ensures t1[..] == seq(256, j requires 0 <= j < 256 => j) && forall j :: 0 <= j < 256 ==> t3[j] == 0
  {
    hide Inverse, Pairing, Below;
    var i := 0;
    while i < 256
      invariant 0 <= i <= 256
      invariant forall j :: 0 <= j < i ==> t1[j] == j && t3[j] == 0
    {
      t1[i], t3[i] := i, 0;
      i := i + 1;
    }
    inv := t1[..];
    Identity(inv);
    free := Below(256);
    PairingStart(t3[..], free);
  }

  method Pair(random: nat, t3: array<Byte>, k: int, ghost free: set<int>) returns (ghost rest: set<int>)
    requires t3.Length == 256 && 0 <= k < 256
    requires Pairing(t3[..], free, k) && t3[k] == 0
    modifies t3
    ensures Pairing(t3[..], rest, k - 1) && Paired(old(t3[..]), t3[..], k, random)
  {
    ghost var u := AnotherFree(t3[..], free, k);
    var ic := Rem(random / 256 % 256, k);
    ghost var from := ic;
    while t3[ic] != 0
      invariant 0 <= ic < k && Passed(t3[..], from, ic, k)
      decreases Distance(ic, u, k)
    {
      ic := Rem(ic + 1, k);
    }
    PairStep(t3[..], free, k, ic);
    ghost var next := t3[..][k := ic][ic := k];
    rest := free - {k, ic};
    t3[k] := ic;
    t3[ic] := k;
    assert t3[..] == next;
  }

  method Invert(t1: array<Byte>, t2: array<Byte>, ghost inv: seq<Byte>)
    requires t1.Length == 256 && t2.Length == 256 && t1 != t2
    requires Inverse(t1[..], inv)
    modifies t2
    ensures t2[..] == inv
  {
    ghost var t := t1[..];
    var i := 0;
    while i < 256
      invariant 0 <= i <= 256
      invariant t1[..] == t
      invariant forall j :: 0 <= j < 256 && inv[j] < i ==> t2[j] == inv[j]
    {
      assert forall j :: 0 <= j < 256 && inv[j] == i ==> j == t[i];
      t2[t1[i]] := i;
      i := i + 1;
    }
  }

  // ---------------------------------------------------------------- crblock

  /** Add and subtract as the source's masked byte arithmetic does. */
  function Plus(x: Byte, n: Byte): (y: Byte)
    ensures Minus(y, n) == x
  {
    if x + n < 256 then x + n else x + n - 256
  }

  function Minus(x: Byte, n: Byte): (y: Byte) {
    if x >= n then x - n else x - n + 256
  }

  /** One byte with the rotors turned by n1 and n2. */
  function Turn(r: Rotors, c: Byte, n1: Byte, n2: Byte): (e: Byte)
    requires r.Sized()
  {
    Minus(r.t2[Minus(r.t3[Plus(r.t1[Plus(c, n1)], n2)], n2)], n1)
  }

  /** The same with the masks of the source. */
  lemma Masked(r: Rotors, c: Byte, n1: Byte, n2: Byte)
    requires r.Sized()
    ensures Turn(r, c, n1, n2) == (r.t2[(r.t3[(r.t1[(c + n1) % 256] + n2) % 256] - n2) % 256] - n1) % 256
  {
  }

  lemma TurnIs(r: Rotors, c: Byte, n1: Byte, n2: Byte)
    requires r.Sized()
    ensures Turn(r, c, n1, n2) == Minus(r.t2[Minus(r.t3[Plus(r.t1[Plus(c, n1)], n2)], n2)], n1)
  {
  }

  lemma MaskedSeq(r: Rotors, s: seq<Byte>, n: nat)
    requires r.Sized()
    ensures forall p :: 0 <= p < |s| ==>
              var n1, n2 := (n + p) % 256, (n + p) / 256 % 256;
              CrSeq(r, s, n)[p] == (r.t2[(r.t3[(r.t1[(s[p] + n1) % 256] + n2) % 256] - n2) % 256] - n1) % 256
  {
    hide Turn;
    forall p | 0 <= p < |s|
      ensures var n1, n2 := (n + p) % 256, (n + p) / 256 % 256;
              CrSeq(r, s, n)[p] == (r.t2[(r.t3[(r.t1[(s[p] + n1) % 256] + n2) % 256] - n2) % 256] - n1) % 256
    {
      Masked(r, s[p], (n + p) % 256, (n + p) / 256 % 256);
    }
  }

  /** One byte at stream position n. */
  function CrByte(r: Rotors, c: Byte, n: nat): (e: Byte)
    requires r.Sized()
  {
    Turn(r, c, n % 256, n / 256 % 256)
  }

  /** The whole buffer, its first byte at stream position n. */
  function CrSeq(r: Rotors, s: seq<Byte>, n: nat): (e: seq<Byte>)
    requires r.Sized()
    ensures |e| == |s|
    ensures forall i :: 0 <= i < |s| ==> e[i] == CrByte(r, s[i], n + i)
  {
    seq(|s|, i requires 0 <= i < |s| => CrByte(r, s[i], n + i))
  }

  lemma CounterStep(n: nat)
    ensures n % 256 == 255 ==> (n + 1) % 256 == 0 && (n + 1) / 256 == n / 256 + 1
    ensures n % 256 < 255 ==> (n + 1) % 256 == n % 256 + 1 && (n + 1) / 256 == n / 256
  {
  }

  /** The two counters at the next byte. */
  method Count(n1: int, n2: int, ghost n: nat) returns (m1: int, m2: int)
    requires n1 == n % 256 && n2 == n / 256 % 256
    ensures m1 == (n + 1) % 256 && m2 == (n + 1) / 256 % 256
  {
    CounterStep(n);
    CounterStep(n / 256);
    m1, m2 := n1 + 1, n2;
    if m1 == 256 {
      m1, m2 := 0, n2 + 1;
      if m2 == 256 {
        m2 := 0;
      }
    }
  }

  method CrBlock(t1: array<Byte>, t2: array<Byte>, t3: array<Byte>, buf: array<Byte>, start: nat)
    requires t1.Length == 256 && t2.Length == 256 && t3.Length == 256
    requires buf != t1 && buf != t2 && buf != t3
    modifies buf
    ensures buf[..] == CrSeq(Rotors(t1[..], t2[..], t3[..]), old(buf[..]), start)
    ensures forall p :: 0 <= p < buf.Length ==>
              var n1, n2 := (start + p) % 256, (start + p) / 256 % 256;
              buf[p] == (t2[(t3[(t1[(old(buf[p]) + n1) % 256] + n2) % 256] - n2) % 256] - n1) % 256
  {
    hide Turn, Plus, Minus;
    ghost var r := Rotors(t1[..], t2[..], t3[..]);
    var n1: int, n2: int := start % 256, start / 256 % 256;
    var p := 0;
    while p < buf.Length
      invariant 0 <= p <= buf.Length
      invariant r == Rotors(t1[..], t2[..], t3[..])
      invariant n1 == (start + p) % 256 && n2 == (start + p) / 256 % 256
      invariant forall i :: 0 <= i < p ==> buf[i] == CrByte(r, old(buf[i]), start + i)
      invariant forall i :: p <= i < buf.Length ==> buf[i] == old(buf[i])
    {
      var a := t1[Plus(buf[p], n1)];
      var b := t3[Plus(a, n2)];
      var c := t2[Minus(b, n2)];
      TurnIs(r, buf[p], n1, n2);
      buf[p] := Minus(c, n1);
      assert buf[p] == CrByte(r, old(buf[p]), start + p);
      n1, n2 := Count(n1, n2, start + p);
      p := p + 1;
    }
    MaskedSeq(r, old(buf[..]), start);
    assert buf[..] == CrSeq(r, old(buf[..]), start);
  }

  /** Transforming a byte twice at the same position restores it, and once never keeps it. */
  lemma TurnInvolution(r: Rotors, c: Byte, n1: Byte, n2: Byte)
    requires r.Good()
    ensures Turn(r, Turn(r, c, n1, n2), n1, n2) == c
    ensures Turn(r, c, n1, n2) != c
  {
    var a := Plus(c, n1);
    var b := Plus(r.t1[a], n2);
    var d := Minus(r.t3[b], n2);
    var e := Minus(r.t2[d], n1);
    assert e == Turn(r, c, n1, n2);
    assert Plus(e, n1) == r.t2[d] && r.t1[r.t2[d]] == d;
    assert Plus(d, n2) == r.t3[b] && r.t3[r.t3[b]] == b;
    assert Minus(b, n2) == r.t1[a];
  }

  /** Decryption is encryption: the buffer transform is its own inverse. */
  lemma CrSeqInvolution(r: Rotors, s: seq<Byte>, n: nat)
    requires r.Good()
    ensures CrSeq(r, CrSeq(r, s, n), n) == s
  {
    var e := CrSeq(r, s, n);
    forall i | 0 <= i < |s|
      ensures CrSeq(r, e, n)[i] == s[i]
    {
      TurnInvolution(r, s[i], (n + i) % 256, (n + i) / 256 % 256);
    }
  }

  /** A stream may be cut anywhere, as ed does with its read and write buffers. */
  lemma CrSeqSplit(r: Rotors, a: seq<Byte>, b: seq<Byte>, n: nat)
    requires r.Sized()
    ensures CrSeq(r, a + b, n) == CrSeq(r, a, n) + CrSeq(r, b, n + |a|)
  {
    forall i | 0 <= i < |a + b|
      ensures CrSeq(r, a + b, n)[i] == (CrSeq(r, a, n) + CrSeq(r, b, n + |a|))[i]
    {
      assert n + i == if i < |a| then n + i else n + |a| + (i - |a|);
    }
  }
}
