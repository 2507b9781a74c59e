/** The word of selected optimisations, changed only by select. The 16-bit word is
    proved to be a set of codes: OR is union, AND with a code's word is membership,
    and XOR with it adds or removes the code. */
module Optimizations {
  import opened Types

  datatype Code = NoCode | Sendmmsg | LiburingSend | LiburingRecv | Unknown

  datatype SelectError = NotFound | Incompatible

  type Word = set<Code>

  /** toWord: 1 shifted left by the code. */
  function Bit(o: Code): bv16 {
    match o
    case NoCode => 0x0001
    case Sendmmsg => 0x0002
    case LiburingSend => 0x0004
    case LiburingRecv => 0x0008
    case Unknown => 0x8000
  }

  /** Codes have a bit each, so a word of codes is a set of codes. */
  lemma BitsAreDistinct(o: Code, p: Code)
    ensures Bit(o) != 0 && (Bit(o) & Bit(p) != 0 <==> o == p)
  {
    match (o, p)
    case (NoCode, _) =>
    case (Sendmmsg, _) =>
    case (LiburingSend, _) =>
    case (LiburingRecv, _) =>
    case (Unknown, _) =>
  }

  function Flip(w: Word, o: Code): Word {
    if o in w then w - {o} else w + {o}
  }

  /** The word with these bits. */
  function Pack(none: bool, mmsg: bool, send: bool, recv: bool, other: bool): bv16 {
    (if none then 0x0001 else 0) | (if mmsg then 0x0002 else 0) | (if send then 0x0004 else 0)
    | (if recv then 0x0008 else 0) | if other then 0x8000 else 0
  }

  lemma PackOr(a: bool, b: bool, c: bool, d: bool, e: bool)
    ensures Pack(a, b, c, d, e) | 0x0001 == Pack(true, b, c, d, e)
    ensures Pack(a, b, c, d, e) | 0x0002 == Pack(a, true, c, d, e)
    ensures Pack(a, b, c, d, e) | 0x0004 == Pack(a, b, true, d, e)
    ensures Pack(a, b, c, d, e) | 0x0008 == Pack(a, b, c, true, e)
    ensures Pack(a, b, c, d, e) | 0x8000 == Pack(a, b, c, d, true)
  {
  }

  lemma PackXor(a: bool, b: bool, c: bool, d: bool, e: bool)
    ensures Pack(a, b, c, d, e) ^ 0x0001 == Pack(!a, b, c, d, e)
    ensures Pack(a, b, c, d, e) ^ 0x0002 == Pack(a, !b, c, d, e)
    ensures Pack(a, b, c, d, e) ^ 0x0004 == Pack(a, b, !c, d, e)
    ensures Pack(a, b, c, d, e) ^ 0x0008 == Pack(a, b, c, !d, e)
    ensures Pack(a, b, c, d, e) ^ 0x8000 == Pack(a, b, c, d, !e)
  {
  }

  lemma PackAnd(a: bool, b: bool, c: bool, d: bool, e: bool)
    ensures Pack(a, b, c, d, e) & 0x0001 != 0 <==> a
    ensures Pack(a, b, c, d, e) & 0x0002 != 0 <==> b
    ensures Pack(a, b, c, d, e) & 0x0004 != 0 <==> c
    ensures Pack(a, b, c, d, e) & 0x0008 != 0 <==> d
    ensures Pack(a, b, c, d, e) & 0x8000 != 0 <==> e
  {
  }

  /** The 16-bit word of a set of codes. */
  function Bits(w: Word): bv16 {
    Pack(NoCode in w, Sendmmsg in w, LiburingSend in w, LiburingRecv in w, Unknown in w)
  }

  /** THE WORD IS A SET OF CODES: OR with a code's word adds the code, */
  lemma OrAdds(w: Word, o: Code)
    ensures Bits(w) | Bit(o) == Bits(w + {o})
  {
    PackOr(NoCode in w, Sendmmsg in w, LiburingSend in w, LiburingRecv in w, Unknown in w);
  }

  lemma FlipHas(w: Word, o: Code)
    ensures forall p :: p in Flip(w, o) <==> (p in w) != (p == o)
  {
  }

  /** XOR adds it or takes it away, */
  lemma XorFlips(w: Word, o: Code)
    ensures Bits(w) ^ Bit(o) == Bits(Flip(w, o))
  {
    PackXor(NoCode in w, Sendmmsg in w, LiburingSend in w, LiburingRecv in w, Unknown in w);
    FlipHas(w, o);
    match o
    case NoCode =>
    case Sendmmsg =>
    case LiburingSend =>
    case LiburingRecv =>
    case Unknown =>
  }

  /** and AND finds it. */
  lemma AndFinds(w: Word, o: Code)
    ensures Bits(w) & Bit(o) != 0 <==> o in w
  {
    PackAnd(NoCode in w, Sendmmsg in w, LiburingSend in w, LiburingRecv in w, Unknown in w);
  }

  lemma PackDiffers(a: bool, b: bool, c: bool, d: bool, e: bool, a': bool, b': bool, c': bool, d': bool, e': bool)
    ensures Pack(a, b, c, d, e) == Pack(a', b', c', d', e') ==> a == a' && b == b' && c == c' && d == d' && e == e'
  {
  }

  /** Different sets of codes have different words. */
  lemma BitsDiffer(w: Word, v: Word)
    ensures Bits(w) == Bits(v) <==> w == v
  {
    PackDiffers(NoCode in w, Sendmmsg in w, LiburingSend in w, LiburingRecv in w, Unknown in w,
                NoCode in v, Sendmmsg in v, LiburingSend in v, LiburingRecv in v, Unknown in v);
    if Bits(w) == Bits(v) {
      forall o ensures o in w <==> o in v {
        match o
        case NoCode =>
        case Sendmmsg =>
        case LiburingSend =>
        case LiburingRecv =>
        case Unknown =>
      }
    }
  }

  lemma ZeroIsEmpty(w: Word)
    ensures Bits(w) == 0 <==> w == {}
  {
    BitsDiffer(w, {});
  }

  /** The word of one code has the bit of its number: 0, 1, 2, 3 and 15. */
  lemma WordsOfCodes()
    ensures Bits({NoCode}) == Bit(NoCode) == 1 << 0 && Bits({Sendmmsg}) == Bit(Sendmmsg) == 1 << 1
    ensures Bits({LiburingSend}) == Bit(LiburingSend) == 1 << 2
    ensures Bits({LiburingRecv}) == Bit(LiburingRecv) == 1 << 3
    ensures Bits({Unknown}) == Bit(Unknown) == 1 << 15
  {
  }

  function Codes(opts: seq<Code>): Word {
    set o | o in opts
  }

  predicate Conflict(w: Word) {
    Sendmmsg in w && (LiburingRecv in w || LiburingSend in w)
  }

  /** Something is selected, it is compiled in, and it does not conflict. */
  predicate Good(available: seq<Code>, w: Word) {
    w != {} && w <= Codes(available) && !Conflict(w)
  }

  /** What is left at the end of a select that succeeds: 'none' is flipped unless
      it is alone. */
  function Settle(u: Word): Word {
    if Flip(u, NoCode) != {} then Flip(u, NoCode) else u
  }

  /** The word and the result of one select. */
  function Select(available: seq<Code>, w: Word, opts: seq<Code>): (Word, Option<SelectError>) {
    var u := w + Codes(opts);
    if !(Codes(opts) <= Codes(available)) then ({NoCode}, Some(NotFound))
    else if Conflict(u) then ({NoCode}, Some(Incompatible))
    else (Settle(u), None)
  }

  /** The word after any calls, from the initial 'none'. */
  function After(available: seq<Code>, calls: seq<seq<Code>>): Word {
    if calls == [] then {NoCode}
    else Select(available, After(available, calls[..|calls| - 1]), calls[|calls| - 1]).0
  }

  // ---- main results ------------------------------------------------------------------

  /** WHAT A SELECT ANSWERS. It fails when a code asked for is not compiled in, or else when
      sendmmsg and a liburing code would both be selected, and then leaves 'none'; if it
      succeeds, the codes other than 'none' are those selected before and those asked for. */
  lemma SelectAnswers(available: seq<Code>, w: Word, opts: seq<Code>)
    ensures var (r, err) := Select(available, w, opts);
      && (err == Some(NotFound) <==> exists i :: 0 <= i < |opts| && opts[i] !in available)
      && (err == Some(Incompatible)
          <==> && (forall i :: 0 <= i < |opts| ==> opts[i] in available)
               && (Sendmmsg in w || Sendmmsg in opts)
               && (LiburingSend in w || LiburingSend in opts || LiburingRecv in w || LiburingRecv in opts))
      && (if err.Some? then r == {NoCode}
          else forall o :: o != NoCode ==> (o in r <==> o in w || o in opts))
  {
    if exists i :: 0 <= i < |opts| && opts[i] !in available {
      var i :| 0 <= i < |opts| && opts[i] !in available;
      assert opts[i] in Codes(opts);
    }
  }

  /** One select keeps a good word good, and an error leaves exactly 'none', which
      is always compiled in. */
  lemma SelectKeepsGood(available: seq<Code>, w: Word, opts: seq<Code>)
    requires NoCode in available && Good(available, w)
    ensures var (r, err) := Select(available, w, opts); Good(available, r) && (err.Some? ==> r == {NoCode})
  {
    var u := w + Codes(opts);
    assert Flip(u, NoCode) == {} ==> u <= {NoCode};
  }

  lemma GoodMeans(available: seq<Code>, w: Word)
    requires Good(available, w)
    ensures exists o :: o in w
    ensures forall o :: o in w ==> o in available
    ensures !(Sendmmsg in w && LiburingSend in w) && !(Sendmmsg in w && LiburingRecv in w)
  {
    var o :| o in w;
  }

  /** ANY SEQUENCE OF SELECTS. The word is never zero, never goes beyond what is
      compiled in, and never has sendmmsg together with a liburing bit. */
  lemma {:induction false} SelectionsStayGood(available: seq<Code>, calls: seq<seq<Code>>)
    requires NoCode in available
    ensures Good(available, After(available, calls))
    ensures exists o :: o in After(available, calls)
    ensures forall o :: o in After(available, calls) ==> o in available
    ensures Sendmmsg in After(available, calls) ==>
      LiburingSend !in After(available, calls) && LiburingRecv !in After(available, calls)
  {
    if calls != [] {
      SelectionsStayGood(available, calls[..|calls| - 1]);
      SelectKeepsGood(available, After(available, calls[..|calls| - 1]), calls[|calls| - 1]);
    }
    GoodMeans(available, After(available, calls));
  }

  /** WHEN 'NONE' REMAINS. After a success it is selected exactly when it was the only
      thing selected or asked for, or when it was neither selected nor asked for: then
      the flip that should drop it brings it in beside the others. */
  lemma NoneAfterSuccess(available: seq<Code>, w: Word, opts: seq<Code>)
    requires Select(available, w, opts).1 == None && w != {}
    ensures NoCode in Select(available, w, opts).0
      <==> w + Codes(opts) == {NoCode} || (NoCode !in w && NoCode !in opts)
  {
    var u := w + Codes(opts);
    assert NoCode in u ==> (Flip(u, NoCode) == {} <==> u == {NoCode});
  }

  /** From a word with 'none' in it, a success leaves 'none' selected if and only if
      it leaves nothing else selected; from any other good word that fails exactly
      when 'none' is not asked for. */
  lemma NoneMeansNothingElse(available: seq<Code>, w: Word, opts: seq<Code>)
    requires Select(available, w, opts).1 == None && w != {}
    ensures (NoCode in Select(available, w, opts).0 <==> Select(available, w, opts).0 == {NoCode})
      <==> NoCode in w || NoCode in opts
  {
    var u := w + Codes(opts);
    assert NoCode in u ==> (Flip(u, NoCode) == {} <==> u == {NoCode});
    if NoCode !in u {
      var o :| o in w;
      assert o in Settle(u) && o != NoCode;
    }
  }

  /** Two selects in a row: the second brings 'none' back beside sendmmsg. */
  lemma SecondSelectBringsNoneBack(available: seq<Code>)
    requires NoCode in available && Sendmmsg in available
    ensures After(available, [[Sendmmsg], []]) == {NoCode, Sendmmsg}
  {
    var calls: seq<seq<Code>> := [[Sendmmsg], []];
    assert calls[..1] == [[Sendmmsg]] && calls[..1][..0] == [];
    assert Codes([Sendmmsg]) == {Sendmmsg} && Codes([]) == {};
    var u: Word := {NoCode} + {Sendmmsg};
    assert Flip(u, NoCode) == {Sendmmsg} && Sendmmsg in Flip(u, NoCode);
    assert After(available, calls[..1]) == {Sendmmsg};
    var v: Word := {Sendmmsg} + {};
    assert v == {Sendmmsg} && NoCode in Flip(v, NoCode);
  }

  // ---- the object --------------------------------------------------------------------

  /** selected is the 16-bit word; codes is the set that it stands for. */
  class Selection {
    const available: seq<Code>
    var selected: bv16
    ghost var codes: Word

    ghost predicate Valid()
      reads this
    {
      selected == Bits(codes)
    }

    constructor (available: seq<Code>)
      ensures Valid() && this.available == available && codes == {NoCode} && selected == 1
    {
      this.available, selected, codes := available, Bit(NoCode), {NoCode};
    }

    /** The word that ORs the codes of a list. */
    static method OrAll(opts: seq<Code>) returns (ow: bv16)
      ensures ow == Bits(Codes(opts))
    {
      ow := 0;
      for i := 0 to |opts|
        invariant ow == Bits(Codes(opts[..i]))
      {
        OrAdds(Codes(opts[..i]), opts[i]);
        assert Codes(opts[..i + 1]) == Codes(opts[..i]) + {opts[i]};
        ow := ow | Bit(opts[i]);
      }
      assert opts[..|opts|] == opts;
    }

    /** isSelected. */
    method IsSelected(o: Code) returns (on: bool)
      requires Valid()
      ensures on <==> o in codes
    {
      AndFinds(codes, o);
      on := selected & Bit(o) != 0;
    }

    method Reset()
      modifies this
      ensures Valid() && codes == {NoCode}
    {
      selected, codes := Bit(NoCode), {NoCode};
    }

    /** Add a code, if it is compiled in. */
    method Add(ow: bv16, o: Code) returns (found: bool)
      requires Valid() && ow == Bits(Codes(available))
      modifies this
      ensures Valid() && found == (o in available)
      ensures codes == if found then old(codes) + {o} else old(codes)
    {
      AndFinds(Codes(available), o);
      OrAdds(codes, o);
      found := ow & Bit(o) != 0;
      if found { selected, codes := selected | Bit(o), codes + {o}; }
    }

    /** Remove 'none', or bring it in, unless nothing would be left. */
    method DropNone()
      requires Valid()
      modifies this
      ensures Valid() && codes == Settle(old(codes))
    {
      XorFlips(codes, NoCode);
      ZeroIsEmpty(Flip(codes, NoCode));
      if selected ^ Bit(NoCode) != 0 {
        selected, codes := selected ^ Bit(NoCode), Flip(codes, NoCode);
      }
    }

    /** select: add the codes one by one, then look for conflicts. */
    method Choose(opts: seq<Code>) returns (err: Option<SelectError>)
      requires Valid()
      modifies this
      ensures Valid() && (codes, err) == Select(available, old(codes), opts)
    {
      var ow := OrAll(available);
      for i := 0 to |opts|
        invariant Valid() && codes == old(codes) + Codes(opts[..i]) && Codes(opts[..i]) <= Codes(available)
      {
        assert Codes(opts[..i + 1]) == Codes(opts[..i]) + {opts[i]};
        var found := Add(ow, opts[i]);
        if !found {
          assert opts[i] in Codes(opts);
          Reset();
          return Some(NotFound);
        }
      }
      assert opts[..|opts|] == opts;
      var mmsg := IsSelected(Sendmmsg);
      var recv := IsSelected(LiburingRecv);
      var send := IsSelected(LiburingSend);
      if mmsg && (recv || send) {
        Reset();
        return Some(Incompatible);
      }
      DropNone();
      return None;
    }

    /** selectedAsList: what is compiled in and selected. */
    method SelectedAsList() returns (ret: seq<Code>)
      requires Valid()
      ensures forall o :: o in ret <==> o in available && o in codes
    {
      ret := [];
      for i := 0 to |available|
        invariant forall o :: o in ret <==> o in available[..i] && o in codes
      {
        var on := IsSelected(available[i]);
        if on { ret := ret + [available[i]]; }
      }
      assert available[..|available|] == available;
    }

    /** selectedAsWord: the word rebuilt from the list is the one stored if and only
        if everything selected is compiled in, which selecting preserves. */
    method SelectedAsWord() returns (ow: bv16)
      requires Valid()
      ensures ow == selected <==> codes <= Codes(available)
    {
      var list := SelectedAsList();
      ow := OrAll(list);
      assert Codes(list) == codes * Codes(available);
      BitsDiffer(Codes(list), codes);
    }
  }
}
