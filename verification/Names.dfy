/** Symbol names: characters packed as 6 or 7 bits into a chain of machine words. */
module Names {
  import opened WordBits

  // The codes of the 7-bit characters, even ones taking 6 bits and odd ones 7; and back.
  function Ascii6(c: int): int {
    match c
    case 0 => 0 case 33 => 1 case 34 => 3 case 35 => 5 case 36 => 7 case 37 => 9 case 38 => 11 case 39 => 13
    case 40 => 15 case 41 => 17 case 42 => 19 case 43 => 21 case 44 => 23 case 45 => 25 case 46 => 4 case 47 => 6
    case 48 => 27 case 49 => 29 case 50 => 31 case 51 => 33 case 52 => 35 case 53 => 37 case 54 => 39 case 55 => 41
    case 56 => 43 case 57 => 45 case 58 => 47 case 59 => 49 case 60 => 8 case 61 => 51 case 62 => 10 case 63 => 53
    case 64 => 55 case 65 => 57 case 66 => 59 case 67 => 61 case 68 => 63 case 69 => 65 case 70 => 67 case 71 => 69
    case 72 => 71 case 73 => 73 case 74 => 75 case 75 => 77 case 76 => 79 case 77 => 81 case 78 => 83 case 79 => 85
    case 80 => 87 case 81 => 89 case 82 => 91 case 83 => 93 case 84 => 95 case 85 => 97 case 86 => 99 case 87 => 101
    case 88 => 103 case 89 => 105 case 90 => 107 case 91 => 109 case 92 => 111 case 93 => 113 case 94 => 115
    case 95 => 117 case 96 => 119 case 97 => 12 case 98 => 14 case 99 => 16 case 100 => 18 case 101 => 20
    case 102 => 22 case 103 => 24 case 104 => 26 case 105 => 28 case 106 => 30 case 107 => 32 case 108 => 34
    case 109 => 36 case 110 => 38 case 111 => 40 case 112 => 42 case 113 => 44 case 114 => 46 case 115 => 48
    case 116 => 50 case 117 => 52 case 118 => 54 case 119 => 56 case 120 => 58 case 121 => 60 case 122 => 62
    case 123 => 121 case 124 => 123 case 125 => 125 case 126 => 127 case 127 => 0
    case _ => 2
  }

  function Ascii7(c: int): int {
    match c
    case 1 => 33 case 2 => 32 case 3 => 34 case 4 => 46 case 5 => 35 case 6 => 47 case 7 => 36 case 8 => 60
    case 9 => 37 case 10 => 62 case 11 => 38 case 12 => 97 case 13 => 39 case 14 => 98 case 15 => 40 case 16 => 99
    case 17 => 41 case 18 => 100 case 19 => 42 case 20 => 101 case 21 => 43 case 22 => 102 case 23 => 44
    case 24 => 103 case 25 => 45 case 26 => 104 case 27 => 48 case 28 => 105 case 29 => 49 case 30 => 106
    case 31 => 50 case 32 => 107 case 33 => 51 case 34 => 108 case 35 => 52 case 36 => 109 case 37 => 53
    case 38 => 110 case 39 => 54 case 40 => 111 case 41 => 55 case 42 => 112 case 43 => 56 case 44 => 113
    case 45 => 57 case 46 => 114 case 47 => 58 case 48 => 115 case 49 => 59 case 50 => 116 case 51 => 61
    case 52 => 117 case 53 => 63 case 54 => 118 case 55 => 64 case 56 => 119 case 57 => 65 case 58 => 120
    case 59 => 66 case 60 => 121 case 61 => 67 case 62 => 122 case 63 => 68 case 65 => 69 case 67 => 70 case 69 => 71
    case 71 => 72 case 73 => 73 case 75 => 74 case 77 => 75 case 79 => 76 case 81 => 77 case 83 => 78 case 85 => 79
    case 87 => 80 case 89 => 81 case 91 => 82 case 93 => 83 case 95 => 84 case 97 => 85 case 99 => 86 case 101 => 87
    case 103 => 88 case 105 => 89 case 107 => 90 case 109 => 91 case 111 => 92 case 113 => 93 case 115 => 94
    case 117 => 95 case 119 => 96 case 121 => 123 case 123 => 124 case 125 => 125 case 127 => 126
    case _ => 0
  }

  function Code(c: nat): nat {
    Ascii6(c % 128)
  }

  function Len(code: nat): nat {
    if code % 2 == 1 then 7 else 6
  }

  // What comes back for a character.
  function Norm(c: nat): int {
    Ascii7(Code(c))
  }

  lemma CodeFits(c: nat)
    ensures Code(c) < P(Len(Code(c))) && 0 <= Norm(c) < 128
    ensures 32 <= c < 127 ==> Norm(c) == c && Norm(c) != 0
  {
    hide Ascii6, Ascii7;
    if c % 128 < 64 {
      TableFitsBelow(c % 128);
    } else {
      TableFitsAbove(c % 128);
    }
    assert P(6) == 64 && P(7) == 128;
  }

  // Characters are taken modulo 128; control characters come back as spaces, and 127 as the end of the name.
  lemma NormIs(c: nat)
    ensures (var a := c % 128; Norm(c) == if a == 0 || a == 127 then 0 else if a < 32 then 32 else a)
  {
    hide Ascii6, Ascii7;
    if c % 128 < 64 {
      TableFitsBelow(c % 128);
    } else {
      TableFitsAbove(c % 128);
    }
  }

  // Lower-case letters, the characters . / < >, the space and the end take 6 bits, all others 7.
  lemma CodeLength(c: nat)
    ensures (var a := c % 128;
             Len(Code(c)) == if 97 <= a <= 122 || a in [46, 47, 60, 62] || a <= 32 || a == 127 then 6 else 7)
  {
  }

  lemma TableFitsBelow(c: int)
    requires 0 <= c < 64
    ensures 0 <= Ascii6(c) < 128 && (Ascii6(c) % 2 == 0 ==> Ascii6(c) < 64)
    ensures 0 <= Ascii7(Ascii6(c)) < 128
    ensures 32 <= c < 127 ==> Ascii7(Ascii6(c)) == c
    ensures c < 32 || c == 127 ==> Ascii7(Ascii6(c)) == if c == 0 || c == 127 then 0 else 32
  {
  }

  lemma TableFitsAbove(c: int)
    requires 64 <= c < 128
    ensures 0 <= Ascii6(c) < 128 && (Ascii6(c) % 2 == 0 ==> Ascii6(c) < 64)
    ensures 0 <= Ascii7(Ascii6(c)) < 128
    ensures 32 <= c < 127 ==> Ascii7(Ascii6(c)) == c
    ensures c < 32 || c == 127 ==> Ascii7(Ascii6(c)) == if c == 0 || c == 127 then 0 else 32
  {
  }

  // ---------- the bits of a string ----------

  function Bits(s: seq<nat>): nat {
    if s == [] then 0 else Len(Code(s[0])) + Bits(s[1..])
  }

  // The codes one above the other, as one number.
  function Enc(s: seq<nat>): nat {
    if s == [] then 0 else Code(s[0]) + P(Len(Code(s[0]))) * Enc(s[1..])
  }

  lemma {:induction false} EncAppend(s: seq<nat>, c: nat)
    ensures Bits(s + [c]) == Bits(s) + Len(Code(c))
    ensures Enc(s + [c]) == Enc(s) + P(Bits(s)) * Code(c)
  {
    hide Code, P;
    if s == [] {
      PZero();
      assert [] + [c] == [c];
      assert Enc([c][1..]) == 0;
    } else {
      assert (s + [c])[1..] == s[1..] + [c];
      EncAppend(s[1..], c);
      var len := Len(Code(s[0]));
      Regroup(Code(s[0]), P(len), Enc(s[1..]), P(Bits(s[1..])), Code(c));
      PAdd(len, Bits(s[1..]));
    }
  }

  // ---------- names ----------

  // The bits in the pointer itself, or a chain of full words ended by a number.
  datatype Name = Txt(n: nat) | Chain(ws: seq<nat>, last: nat)

  // The value of a chain of words of w bits.
  function Val(w: nat, ws: seq<nat>): nat {
    if ws == [] then 0 else ws[0] + P(w) * Val(w, ws[1..])
  }

  lemma {:induction false} ValAppend(w: nat, ws: seq<nat>, x: nat)
    ensures Val(w, ws + [x]) == Val(w, ws) + P(Width(w, |ws|)) * x
  {
    hide P, Width;
    if ws == [] {
      PZero();
      WidthNext(w, 0);
      assert [] + [x] == [x];
    } else {
      assert (ws + [x])[1..] == ws[1..] + [x];
      ValAppend(w, ws[1..], x);
      Regroup(ws[0], P(w), Val(w, ws[1..]), P(Width(w, |ws| - 1)), x);
      PAdd(w, Width(w, |ws| - 1));
      WidthNext(w, |ws| - 1);
    }
  }

  predicate WordsFit(w: nat, ws: seq<nat>) {
    forall k :: 0 <= k < |ws| ==> ws[k] < P(w)
  }

  // A name as memory can hold it: two bits of a pointer or a number are tags, or one.
  predicate Fits(w: nat, name: Name) {
    w >= 16
    && match name
       case Txt(n) => n < P(w - 1)
       case Chain(ws, last) => ws != [] && WordsFit(w, ws) && last < P(w - 2)
  }

  function Total(w: nat, name: Name): nat {
    match name
    case Txt(n) => n
    case Chain(ws, last) => Val(w, ws) + P(Width(w, |ws|)) * last
  }

  function Capacity(w: nat, name: Name): nat
    requires w >= 2
  {
    match name
    case Txt(_) => w - 1
    case Chain(ws, _) => Width(w, |ws|) + w - 2
  }

  // The name holds the string.
  predicate Stores(w: nat, name: Name, s: seq<nat>) {
    Fits(w, name) && Total(w, name) == Enc(s) && Bits(s) <= Capacity(w, name)
  }

  // ---------- packing ----------

  // What the packing variables hold: i bits in p above the full words ws.
  ghost predicate Holds(w: nat, i: nat, p: nat, ws: seq<nat>, s: seq<nat>) {
    && w >= 16 && i <= w && p < P(i) && WordsFit(w, ws)
    && Bits(s) == Width(w, |ws|) + i && Enc(s) == Val(w, ws) + P(Width(w, |ws|)) * p
  }

  lemma WordKept(w: nat, i: nat, p: nat, k: nat, d: nat)
    requires p < P(i) && k < P(d) && i + d <= w
    ensures Or(p, (P(i) * k) % P(w)) == p + P(i) * k && p + P(i) * k < P(i + d)
  {
    hide P, Or;
    BelowBoth(p, i, k, d);
    BelowBoth(0, i, k, d);
    PGrows(i + d, w);
    DivUnique(P(i) * k, P(w), 0, P(i) * k);
    OrIsPlus(p, k, i);
  }

  // The code fits into the current word.
  lemma HoldsMore(w: nat, i: nat, p: nat, ws: seq<nat>, s: seq<nat>, c: nat)
    requires Holds(w, i, p, ws, s) && i + Len(Code(c)) <= w
    ensures Or(p, (P(i) * Code(c)) % P(w)) == p + P(i) * Code(c) && i < w
    ensures Holds(w, i + Len(Code(c)), p + P(i) * Code(c), ws, s + [c])
  {
    hide Code, P, Val, Enc, Bits, WordsFit, Or, Len, Width;
    var d, k := Len(Code(c)), Code(c);
    CodeFits(c);
    LenIs(k);
    EncAppend(s, c);
    WordKept(w, i, p, k, d);
    PAdd(Width(w, |ws|), i);
    OnTop(Enc(s), Val(w, ws), P(Width(w, |ws|)), p, P(Bits(s)), P(i), k);
  }

  lemma LenIs(code: nat)
    ensures 6 <= Len(code) <= 7
  {
  }

  // The code fills the current word and goes on in the next one.
  lemma HoldsNext(w: nat, i: nat, p: nat, ws: seq<nat>, s: seq<nat>, c: nat)
    requires Holds(w, i, p, ws, s) && i + Len(Code(c)) > w
    ensures i <= w
    ensures (var word := if i != w then Or(p, (P(i) * Code(c)) % P(w)) else p;
             Holds(w, i - w + Len(Code(c)), Shr(Code(c), w - i), ws + [word], s + [c]))
  {
    hide Code, P, Val, Enc, Bits, WordsFit, Or, Width, Shr, Len;
    CodeFits(c);
    LenIs(Code(c));
    var low := SplitCode(w, i, p, Code(c), Len(Code(c)));
    NextValue(w, i, p, ws, s, c, p + P(i) * low, Shr(Code(c), w - i));
  }

  // The part of the code above the word is cut off, the rest is put next to p.
  lemma SplitCode(w: nat, i: nat, p: nat, k: nat, d: nat) returns (low: nat)
    requires p < P(i) && i <= w < i + d && k < P(d)
    ensures Or(p, (P(i) * k) % P(w)) == p + P(i) * low && p + P(i) * low < P(w)
    ensures P(i) * k == P(w) * Shr(k, w - i) + P(i) * low
    ensures Shr(k, w - i) < P(d - (w - i))
    ensures i == w ==> P(i) * low == 0
  {
    hide P, Or, Shr;
    low := CutCode(w, i, k);
    BelowBoth(p, i, low, w - i);
    OrIsPlus(p, low, i);
    CarryFits(k, w - i, d);
    PZero();
  }

  lemma CutCode(w: nat, i: nat, k: nat) returns (low: nat)
    requires i <= w
    ensures low < P(w - i) && (P(i) * k) % P(w) == P(i) * low && P(i) * k == P(w) * Shr(k, w - i) + P(i) * low
  {
    hide P;
    var m := P(w - i);
    low := k % m;
    PAdd(i, w - i);
    SplitSum(0, P(i), m, k / m, low);
    BelowBoth(0, i, low, w - i);
    DivUnique(P(i) * k, P(w), k / m, P(i) * low);
  }

  lemma CarryFits(k: nat, a: nat, d: nat)
    requires k < P(d) && a <= d
    ensures Shr(k, a) < P(d - a)
  {
    PAdd(a, d - a);
    QuotientBelow(k, P(a), P(d - a));
  }

  lemma NextValue(w: nat, i: nat, p: nat, ws: seq<nat>, s: seq<nat>, c: nat, word: nat, carry: nat)
    requires Holds(w, i, p, ws, s) && P(i) * Code(c) == P(w) * carry + (word - p) && word >= p && word < P(w)
    requires Len(Code(c)) > w - i && carry < P(Len(Code(c)) - (w - i))
    ensures Holds(w, i - w + Len(Code(c)), carry, ws + [word], s + [c])
  {
    hide Code, P, Val, Enc, Bits, Len, Width;
    LenIs(Code(c));
    EncAppend(s, c);
    ValAppend(w, ws, word);
    WidthNext(w, |ws|);
    PAdd(Width(w, |ws|), i);
    PAdd(Width(w, |ws|), w);
    NextSum(Enc(s), Val(w, ws), P(Width(w, |ws|)), p, P(Bits(s)), P(i), Code(c), word, P(w), carry);
  }

  lemma NextSum(e: int, v: int, a: int, p: int, b: int, i: int, k: int, word: int, m: int, carry: int)
    requires e == v + a * p && b == a * i && i * k == m * carry + (word - p)
    ensures e + b * k == (v + a * word) + (a * m) * carry
  {
    OnTop(e, v, a, p, b, i, k);
    Regroup(v, a, word, m, carry);
  }

  class Packer {
    const w: nat
    var i: nat
    var p: nat
    var ws: seq<nat>

    // putByte0
    constructor (w: nat)
      requires w >= 16
      ensures this.w == w && Packs([])
    {
      this.w, i, p, ws := w, 0, 0, [];
    }

    ghost predicate Packs(s: seq<nat>)
      reads this
    {
      Holds(w, i, p, ws, s)
    }

    // putByte1
    method PutByte1(c: nat)
      requires w >= 16
      modifies this
      ensures Packs([c])
    {
      hide Code, P;
      CodeFits(c);
      assert [] + [c] == [c];
      EncAppend([], c);
      p := Code(c);
      i := if p % 2 == 1 then 7 else 6;
      ws := [];
    }

    // putByte
    method PutByte(c: nat, ghost s: seq<nat>)
      requires Packs(s)
      modifies this
      ensures Packs(s + [c])
    {
      hide Code, P, Val, Enc, Bits, WordsFit, Or, Holds, Width;
      ghost var i0, p0, ws0 := i, p, ws;
      var code := Code(c);
      var d := if code % 2 == 1 then 7 else 6;
      if i + d <= w {
        HoldsMore(w, i, p, ws, s, c);
      } else {
        HoldsNext(w, i, p, ws, s, c);
      }
      if i != w {
        p := Or(p, (P(i) * code) % P(w));
      }
      if i + d > w {
        ws := ws + [p];
        p := Shr(code, w - i);
        i := i - w + d;
      } else {
        i := i + d;
      }
    }

    // popSym
    method PopSym(ghost s: seq<nat>) returns (name: Name)
      requires Packs(s)
      ensures Stores(w, name, s)
    {
      PopFits(w, i, p, ws, s);
      if ws != [] {
        return if i <= w - 2 then Chain(ws, p) else Chain(ws + [p], 0);
      }
      if i > w - 1 {
        return Chain([p], 0);
      }
      return Txt(p);
    }
  }

  lemma PopFits(w: nat, i: nat, p: nat, ws: seq<nat>, s: seq<nat>)
    requires Holds(w, i, p, ws, s)
    ensures i <= w - 2 && ws != [] ==> Stores(w, Chain(ws, p), s)
    ensures ws + [p] == [p] || ws != []
    ensures i > w - 2 ==> Stores(w, Chain(ws + [p], 0), s)
    ensures ws == [] && i <= w - 1 ==> Stores(w, Txt(p), s)
  {
    hide P, Enc, Bits, Width;
    PGrows(i, w);
    if i <= w - 2 {
      PGrows(i, w - 2);
    }
    if i <= w - 1 {
      PGrows(i, w - 1);
    }
    ValAppend(w, ws, p);
    WidthNext(w, |ws|);
  }

  // ---------- unpacking ----------

  // What is still to be read: nothing, a number, or a chain of words ended by one.
  datatype Rest = NoMore | Number(n: nat) | Words(ws: seq<nat>, last: nat)

  predicate RestFits(w: nat, q: Rest)
    requires w >= 2
  {
    match q
    case NoMore => true
    case Number(n) => n < P(w - 2)
    case Words(ws, last) => ws != [] && WordsFit(w, ws) && last < P(w - 2)
  }

  function RestTotal(w: nat, q: Rest): nat {
    match q
    case NoMore => 0
    case Number(n) => n
    case Words(ws, last) => Val(w, ws) + P(Width(w, |ws|)) * last
  }

  function RestBits(w: nat, q: Rest): nat
    requires w >= 2
  {
    match q
    case NoMore => 0
    case Number(_) => w - 2
    case Words(ws, _) => Width(w, |ws|) + w - 2
  }

  // The first word of the rest, how many bits it has, and what comes after it.
  function Word(q: Rest): nat
    requires !q.NoMore?
    requires q.Words? ==> q.ws != []
  {
    if q.Number? then q.n else q.ws[0]
  }

  function WordSize(w: nat, q: Rest): nat
    requires w >= 2
  {
    if q.Number? then w - 2 else w
  }

  function Tail(q: Rest): Rest
    requires !q.NoMore?
    requires q.Words? ==> q.ws != []
  {
    if q.Number? then NoMore else if |q.ws| == 1 then Number(q.last) else Words(q.ws[1..], q.last)
  }

  lemma TailIs(w: nat, q: Rest)
    requires w >= 2 && RestFits(w, q) && !q.NoMore?
    ensures RestTotal(w, q) == Word(q) + P(WordSize(w, q)) * RestTotal(w, Tail(q))
    ensures RestBits(w, q) == WordSize(w, q) + RestBits(w, Tail(q))
    ensures Word(q) < P(WordSize(w, q)) && RestFits(w, Tail(q))
  {
    hide P, Width;
    if q.Words? {
      var n := |q.ws|;
      WidthNext(w, n - 1);
      PAdd(w, Width(w, n - 1));
      Regroup(q.ws[0], P(w), Val(w, q.ws[1..]), P(Width(w, n - 1)), q.last);
      WidthNext(w, 0);
      PZero();
    }
  }

  // The reading variables hold the string: i bits in p, and the rest q.
  ghost predicate Reads(w: nat, i: nat, p: nat, q: Rest, s: seq<nat>) {
    w >= 16 && i <= w && p < P(i) && RestFits(w, q) && Enc(s) == p + P(i) * RestTotal(w, q)
      && Bits(s) <= i + RestBits(w, q)
  }

  // At the end everything that is left is zero.
  lemma EndIsZero(w: nat, i: nat, p: nat, q: Rest)
    requires Reads(w, i, p, q, [])
    ensures p == 0 && RestTotal(w, q) == 0 && (!q.NoMore? ==> Word(q) == 0)
  {
    hide P, Width;
    if RestTotal(w, q) > 0 {
      MulMono(P(i), 1, RestTotal(w, q));
      assert false;
    }
    if !q.NoMore? {
      TailIs(w, q);
    }
  }

  // The first code is at the bottom.
  lemma FirstCode(s: seq<nat>)
    requires s != []
    ensures (var len := Len(Code(s[0])); Enc(s) % P(len) == Code(s[0]) && Enc(s) / P(len) == Enc(s[1..]))
  {
    hide Code, P, Len;
    CodeFits(s[0]);
    DivUnique(Enc(s), P(Len(Code(s[0]))), Enc(s[1..]), Code(s[0]));
  }

  lemma FirstBit(s: seq<nat>)
    requires s != []
    ensures Enc(s) % 2 == Code(s[0]) % 2
  {
    hide Code, P, Len;
    var len := Len(Code(s[0]));
    LenIs(Code(s[0]));
    PAdd(1, len - 1);
    POne();
    EvenOnTop(Code(s[0]), P(len - 1), Enc(s[1..]));
  }

  // A multiple of two on top does not change the lowest bit.
  lemma EvenOnTop(k: nat, m: nat, r: nat)
    ensures (k + (2 * m) * r) % 2 == k % 2
  {
    DivSum(k, 2, m, r);
  }

  // The whole code is in p.
  lemma ReadHere(w: nat, i: nat, p: nat, q: Rest, s: seq<nat>)
    requires Reads(w, i, p, q, s) && s != [] && Len(Code(s[0])) <= i
    ensures (var len := Len(Code(s[0]));
             p % P(len) == Code(s[0]) && Reads(w, i - len, Shr(p, len), q, s[1..]))
  {
    hide P, Width, Code, RestTotal, RestBits, RestFits, Len;
    LenIs(Code(s[0]));
    FirstCode(s);
    LowBits(p, i, RestTotal(w, q), Len(Code(s[0])));
  }

  // Part of the code is in the next word.
  lemma ReadAcross(w: nat, i: nat, p: nat, q: Rest, s: seq<nat>)
    requires Reads(w, i, p, q, s) && s != [] && i < Len(Code(s[0]))
    ensures !q.NoMore?
    ensures (var len := Len(Code(s[0])); var n := WordSize(w, q);
             && (p + P(i) * Word(q)) % P(len) == Code(s[0])
             && Reads(w, n - (len - i), Shr(Word(q), len - i), Tail(q), s[1..]))
  {
    hide P, Width, Code, RestTotal, Len, WordsFit;
    LenIs(Code(s[0]));
    BitsFirst(s);
    TailIs(w, q);
    FirstCode(s);
    SpanBits(p, i, Word(q), WordSize(w, q), RestTotal(w, Tail(q)), Len(Code(s[0])));
  }

  lemma BitsFirst(s: seq<nat>)
    requires s != []
    ensures Bits(s) >= Len(Code(s[0])) && Bits(s[1..]) == Bits(s) - Len(Code(s[0]))
  {
  }

  // The lowest bit tells how long the code is.
  lemma Parity(w: nat, i: nat, p: nat, q: Rest, s: seq<nat>)
    requires Reads(w, i, p, q, s) && s != [] && i > 0
    ensures p % 2 == Code(s[0]) % 2
  {
    hide P, Width, Code, RestTotal, RestFits, RestBits, Enc, Bits;
    FirstBit(s);
    PAdd(1, i - 1);
    POne();
    EvenOnTop(p, P(i - 1), RestTotal(w, q));
  }

  class Unpacker {
    const w: nat
    var i: nat
    var p: nat
    var q: Rest

    ghost predicate At(s: seq<nat>)
      reads this
    {
      Reads(w, i, p, q, s)
    }

    // getByte1, for a name that holds a string of at least one character.
    constructor (w: nat, name: Name, ghost s: seq<nat>)
      requires Stores(w, name, s)
      ensures this.w == w && At(s) && i > 0
    {
      this.w := w;
      match name {
        case Txt(n) => i, p, q := w - 1, n, NoMore;
        case Chain(ws, last) => i, p, q := w, ws[0], if |ws| == 1 then Number(last) else Words(ws[1..], last);
      }
      new;
      LoadName(w, name, s);
    }

    // The next word of the rest.
    method Load()
      requires !q.NoMore? && (q.Words? ==> q.ws != []) && w >= 2
      modifies `p, `q
      ensures p == Word(old(q)) && q == Tail(old(q))
    {
      match q {
        case Number(n) => p, q := n, NoMore;
        case Words(ws, last) => p, q := ws[0], if |ws| == 1 then Number(last) else Words(ws[1..], last);
      }
    }

    // getByte: the next character, 0 at the end.
    method GetByte(ghost s: seq<nat>) returns (c: int)
      requires At(s)
      modifies this
      ensures s == [] ==> c == 0
      ensures s != [] ==> c == Norm(s[0]) && At(s[1..])
    {
      if i == 0 {
        if q.NoMore? {
          NothingLeft(w, p, q, s);
          return 0;
        }
        LoadNext(w, p, q, s);
        i := if q.Number? then w - 2 else w;
        Load();
      }
      c := Extract(s, if p % 2 == 1 then 7 else 6);
    }

    // The code at the bottom of p, which may go on in the next word.
    method Extract(ghost s: seq<nat>, len: nat) returns (c: int)
      requires At(s) && i > 0 && len == if p % 2 == 1 then 7 else 6
      modifies this
      ensures s == [] ==> c == 0
      ensures s != [] ==> c == Norm(s[0]) && At(s[1..])
    {
      hide Ascii6, Ascii7, P, Reads, Norm, Code, Len, Or, Shr;
      Steps(w, i, p, q, s, len);
      var k := p % P(len);
      p := Shr(p, len);
      if i >= len {
        i := i - len;
      } else {
        if q.NoMore? {
          return 0;
        }
        var n := if q.Number? then w - 2 else w;
        Load();
        k := Or(k, (P(i) * p) % P(w)) % P(len);
        p := Shr(p, len - i);
        i := n - (len - i);
      }
      return Ascii7(k);
    }
  }

  lemma LoadName(w: nat, name: Name, s: seq<nat>)
    requires Stores(w, name, s)
    ensures match name
            case Txt(n) => Reads(w, w - 1, n, NoMore, s)
            case Chain(ws, last) => ws != []
                                    && Reads(w, w, ws[0], if |ws| == 1 then Number(last) else Words(ws[1..], last), s)
  {
    hide P, Enc, Bits, Width;
    if name.Chain? {
      TailIs(w, Words(name.ws, name.last));
    }
  }

  lemma NothingLeft(w: nat, p: nat, q: Rest, s: seq<nat>)
    requires Reads(w, 0, p, q, s) && q.NoMore?
    ensures s == []
  {
    if s != [] {
      BitsFirst(s);
      LenIs(Code(s[0]));
    }
  }

  lemma LoadNext(w: nat, p: nat, q: Rest, s: seq<nat>)
    requires Reads(w, 0, p, q, s) && !q.NoMore?
    ensures (q.Words? ==> q.ws != []) && Reads(w, WordSize(w, q), Word(q), Tail(q), s)
  {
    hide P, Enc, Bits, Width;
    PZero();
    TailIs(w, q);
  }

  // What extracting a code of len bits gives, in each of its cases.
  ghost predicate Extracted(w: nat, i: nat, p: nat, q: Rest, s: seq<nat>, len: nat)
    requires w >= 16 && (q.Words? ==> q.ws != [])
  {
    if s == [] then Ascii7(p % P(len)) == 0
       && (!q.NoMore? ==> Ascii7(Or(p % P(len), (P(i) * Word(q)) % P(w)) % P(len)) == 0)
    else if i >= len then Ascii7(p % P(len)) == Norm(s[0]) && Reads(w, i - len, Shr(p, len), q, s[1..])
    else
      && !q.NoMore? && len - i <= 7
      && Ascii7(Or(p % P(len), (P(i) * Word(q)) % P(w)) % P(len)) == Norm(s[0])
      && Reads(w, WordSize(w, q) - (len - i), Shr(Word(q), len - i), Tail(q), s[1..])
  }

  lemma Steps(w: nat, i: nat, p: nat, q: Rest, s: seq<nat>, len: nat)
    requires Reads(w, i, p, q, s) && i > 0 && len == if p % 2 == 1 then 7 else 6
    ensures w >= 16 && (q.Words? ==> q.ws != []) && Extracted(w, i, p, q, s, len)
  {
    hide Ascii6, Ascii7, P, Code, Or, Shr, Enc, Bits, RestTotal, RestBits;
    if s == [] {
      EndIsZero(w, i, p, q);
      ZeroSteps(w, i, len);
    } else {
      Parity(w, i, p, q, s);
      if i >= len {
        ReadHere(w, i, p, q, s);
      } else {
        StepsAcross(w, i, p, q, s, len);
      }
    }
  }

  lemma StepsAcross(w: nat, i: nat, p: nat, q: Rest, s: seq<nat>, len: nat)
    requires Reads(w, i, p, q, s) && 0 < i < len && s != [] && len == Len(Code(s[0])) && (q.Words? ==> q.ws != [])
    ensures Extracted(w, i, p, q, s, len)
  {
    hide Ascii6, Ascii7, P, Code, Or, Shr, Enc, Bits, RestTotal, RestBits, RestFits, Len;
    LenIs(Code(s[0]));
    ReadAcross(w, i, p, q, s);
    BelowWord(w, i, p, q, s);
    AcrossOr(w, i, p, q, len);
  }

  lemma BelowWord(w: nat, i: nat, p: nat, q: Rest, s: seq<nat>)
    requires Reads(w, i, p, q, s)
    ensures p < P(i) && w >= 16
  {
  }

  lemma ZeroSteps(w: nat, i: nat, len: nat)
    ensures 0 % P(len) == 0 && P(i) * 0 == 0 && 0 % P(w) == 0 && Or(0, 0) == 0 && Ascii7(0) == 0
  {
  }

  // Cutting the next word to a machine word does not cut off the bits of the code.
  lemma AcrossOr(w: nat, i: nat, p: nat, q: Rest, len: nat)
    requires w >= 16 && 0 < i < len <= 7 && p < P(i) && !q.NoMore? && (q.Words? ==> q.ws != [])
    ensures Or(p % P(len), (P(i) * Word(q)) % P(w)) % P(len) == (p + P(i) * Word(q)) % P(len)
  {
    hide P, Or, Shr;
    var x := Word(q);
    PGrows(i, len);
    DivUnique(p, P(len), 0, p);
    var low := CutCode(w, i, x);
    OrIsPlus(p, low, i);
    PAdd(len, w - len);
    DivSum(p + P(i) * low, P(len), P(w - len), Shr(x, w - i));
  }

  // ---------- the round trip ----------

  // The characters of a name up to the first 0, as reading it gives them.
  method ReadName(w: nat, name: Name, ghost s: seq<nat>) returns (r: seq<int>)
    requires Stores(w, name, s)
    ensures r == UpToZero(s)
  {
    hide Stores, Reads, Norm;
    var u := new Unpacker(w, name, s);
    ghost var rest := s;
    r := [];
    var c := u.GetByte(s);
    while c != 0
      invariant u.w == w && (c != 0 ==> rest != [] && u.At(rest[1..]))
      invariant UpToZero(s) == r + (if c == 0 then [] else [c] + UpToZero(rest[1..]))
      decreases |rest|
    {
      r := r + [c];
      rest := rest[1..];
      c := u.GetByte(rest);
    }
  }

  // A string as it comes back: normalised, and cut before the first character that becomes 0.
  function UpToZero(s: seq<nat>): seq<int> {
    if s == [] || Norm(s[0]) == 0 then [] else [Norm(s[0])] + UpToZero(s[1..])
  }

  // Strings of printable ASCII characters come back as they are.
  lemma {:induction false} PrintableComesBack(s: seq<nat>)
    requires forall k :: 0 <= k < |s| ==> 32 <= s[k] < 127
    ensures |UpToZero(s)| == |s| && forall k :: 0 <= k < |s| ==> UpToZero(s)[k] == s[k]
  {
    hide Norm;
    if s != [] {
      CodeFits(s[0]);
      PrintableComesBack(s[1..]);
    }
  }

  // mkSym, and reading the name back.
  method PackAndRead(w: nat, s: seq<nat>) returns (name: Name, r: seq<int>)
    requires w >= 16 && s != []
    ensures Stores(w, name, s) && r == UpToZero(s)
  {
    var pk := new Packer(w);
    pk.PutByte1(s[0]);
    var k := 1;
    assert s[..1] == [s[0]];
    while k < |s|
      invariant 1 <= k <= |s| && pk.Packs(s[..k]) && pk.w == w
    {
      assert s[..k] + [s[k]] == s[..k + 1];
      pk.PutByte(s[k], s[..k]);
      k := k + 1;
    }
    assert s[..|s|] == s;
    name := pk.PopSym(s);
    r := ReadName(w, name, s);
  }
}
