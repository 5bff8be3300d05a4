/**
 Naming a kernel address: the symbol with the greatest address at or below it, found by a
 scan over the symbol table in the order in which the kernel listed it.
 */
module Symbols {
  import opened Options
  import opened PackedWord

  datatype Symbol = Symbol(addr: U64, name: string)

  /** `name+0xoffset`, or the bare address when no symbol precedes it. */
  datatype Symbolised = Named(name: string, offset: nat) | Raw(addr: U64)

  /** The symbol can name the address. A symbol at address zero never does. */
  predicate Candidate(sym: Symbol, addr: U64) {
    0 < sym.addr <= addr
  }

  predicate Nearest(syms: seq<Symbol>, addr: U64, i: nat) {
    && i < |syms|
    && Candidate(syms[i], addr)
    && (forall j :: 0 <= j < |syms| && Candidate(syms[j], addr) ==> syms[j].addr <= syms[i].addr)
    && (forall j :: 0 <= j < i && Candidate(syms[j], addr) ==> syms[j].addr < syms[i].addr)
  }

  /** The symbol the scan settles on. */
  function Chosen(syms: seq<Symbol>, addr: U64): Option<Symbol> {
    if syms == [] then None
    else
      var best, sym := Chosen(syms[..|syms| - 1], addr), syms[|syms| - 1];
      if sym.addr <= addr && sym.addr > (if best.Some? then best.value.addr else 0) then Some(sym) else best
  }

  function Rendered(best: Option<Symbol>, addr: U64): Symbolised
    requires best.Some? ==> best.value.addr <= addr
  {
    if best.Some? && best.value.name != "" then Named(best.value.name, addr - best.value.addr) else Raw(addr)
  }

  /** One more symbol: it takes over exactly if it is a candidate and strictly nearer. */
  lemma NearestOneMore(before: seq<Symbol>, sym: Symbol, addr: U64, i: nat)
    requires Nearest(before, addr, i)
    ensures Nearest(before + [sym], addr, if Candidate(sym, addr) && sym.addr > before[i].addr then |before| else i)
  {
    var syms := before + [sym];
    assert forall j :: 0 <= j < |before| ==> syms[j] == before[j];
  }

  lemma FirstCandidate(before: seq<Symbol>, sym: Symbol, addr: U64)
    requires forall j :: 0 <= j < |before| ==> !Candidate(before[j], addr)
    ensures Candidate(sym, addr) ==> Nearest(before + [sym], addr, |before|)
  {
    var syms := before + [sym];
    assert forall j :: 0 <= j < |before| ==> syms[j] == before[j];
  }

  /** The scan chooses the nearest symbol below, the first listed one among equals. */
  lemma {:induction false} ChosenIsNearest(syms: seq<Symbol>, addr: U64, best: Option<Symbol>)
    requires best == Chosen(syms, addr)
    ensures best.None? ==> forall j :: 0 <= j < |syms| ==> !Candidate(syms[j], addr)
    ensures best.Some? ==> exists i: nat :: Nearest(syms, addr, i) && syms[i] == best.value
    decreases |syms|
  {
    if syms != [] {
      var before, sym := syms[..|syms| - 1], syms[|syms| - 1];
      var was := Chosen(before, addr);
      ChosenIsNearest(before, addr, was);
      assert syms == before + [sym];
      if was.Some? {
        var i: nat :| Nearest(before, addr, i) && before[i] == was.value;
        NearestOneMore(before, sym, addr, i);
      } else {
        FirstCandidate(before, sym, addr);
      }
    }
  }

  method FindSymbol(syms: seq<Symbol>, addr: U64) returns (r: Symbolised)
    ensures Chosen(syms, addr).Some? ==> Chosen(syms, addr).value.addr <= addr
    ensures r == Rendered(Chosen(syms, addr), addr)
    ensures (exists i: nat :: Nearest(syms, addr, i) && syms[i].name != ""
                              && r == Named(syms[i].name, addr - syms[i].addr))
            || (r == Raw(addr) && forall i: nat :: Nearest(syms, addr, i) ==> syms[i].name == "")
  {
    var best := "";
    var bestAddr: U64 := 0;
    for n := 0 to |syms|
      invariant bestAddr <= addr
      invariant Chosen(syms[..n], addr).Some? ==> Chosen(syms[..n], addr).value == Symbol(bestAddr, best)
      invariant Chosen(syms[..n], addr).None? ==> best == "" && bestAddr == 0
    {
      assert syms[..n + 1][..n] == syms[..n];
      if syms[n].addr <= addr && syms[n].addr > bestAddr {
        bestAddr := syms[n].addr;
        best := syms[n].name;
      }
    }
    assert syms[..|syms|] == syms;
    ChosenIsNearest(syms, addr, Chosen(syms, addr));
    if best != "" {
      return Named(best, addr - bestAddr);
    }
    return Raw(addr);
  }

  lemma NearestElsewhere(a: seq<Symbol>, b: seq<Symbol>, addr: U64, x: Option<Symbol>, y: Option<Symbol>)
    requires multiset(a) == multiset(b) && x == Chosen(a, addr) && y == Chosen(b, addr) && x.Some?
    ensures y.Some? && x.value.addr <= y.value.addr && x.value in a && x.value in b
  {
    ChosenIsNearest(a, addr, x);
    ChosenIsNearest(b, addr, y);
    var i: nat :| Nearest(a, addr, i) && a[i] == x.value;
    assert a[i] in multiset(b);
    var j :| 0 <= j < |b| && b[j] == a[i];
    assert Candidate(b[j], addr);
  }

  /** The address of the chosen symbol, and so the offset shown, does not depend on the order
      of the table; if addresses are distinct, neither does the name. */
  lemma {:induction false} OrderDoesNotMatter(a: seq<Symbol>, b: seq<Symbol>, addr: U64,
                                              x: Option<Symbol>, y: Option<Symbol>)
    requires multiset(a) == multiset(b) && x == Chosen(a, addr) && y == Chosen(b, addr)
    ensures x.Some? <==> y.Some?
    ensures x.Some? && y.Some? ==> x.value.addr == y.value.addr
    ensures (forall i, j :: 0 <= i < j < |a| ==> a[i].addr != a[j].addr) ==> x == y
  {
    if x.Some? {
      NearestElsewhere(a, b, addr, x, y);
    }
    if y.Some? {
      NearestElsewhere(b, a, addr, y, x);
    }
  }

  predicate Ascending(syms: seq<Symbol>) {
    forall j, k :: 0 <= j < k < |syms| ==> syms[j].addr <= syms[k].addr
  }

  /** What a binary search for the last entry not above the address finds. */
  predicate LastBelow(syms: seq<Symbol>, addr: U64, i: nat) {
    i < |syms| && syms[i].addr <= addr && (i + 1 < |syms| ==> addr < syms[i + 1].addr)
  }

  /** The entry is not above the address, and later ones are unless they share its own. */
  predicate InLastRun(syms: seq<Symbol>, addr: U64, i: nat) {
    && i < |syms|
    && syms[i].addr <= addr
    && forall j :: i < j < |syms| ==> syms[j].addr == syms[i].addr || addr < syms[j].addr
  }

  /** `first` is the first of the entries that share the address of entry `i`. */
  predicate FirstOfRun(syms: seq<Symbol>, first: nat, i: nat) {
    && first <= i < |syms|
    && syms[first].addr == syms[i].addr
    && (first > 0 ==> syms[first - 1].addr < syms[first].addr)
  }

  lemma LastBelowEndsRun(syms: seq<Symbol>, addr: U64, i: nat)
    requires Ascending(syms)
    ensures LastBelow(syms, addr, i)
       <==> InLastRun(syms, addr, i) && (i + 1 < |syms| ==> syms[i].addr < syms[i + 1].addr)
  {
    if i + 1 < |syms| {
      assert forall j :: i < j < |syms| ==> syms[i + 1].addr <= syms[j].addr;
    }
  }

  lemma NearestWhenSorted(syms: seq<Symbol>, addr: U64, first: nat, i: nat)
    requires Ascending(syms) && FirstOfRun(syms, first, i) && 0 < syms[i].addr
    ensures Nearest(syms, addr, first) <==> InLastRun(syms, addr, i)
  {
    if InLastRun(syms, addr, i) {
      assert forall j :: 0 <= j < first ==> syms[j].addr <= syms[first - 1].addr;
      assert forall j :: 0 <= j <= i ==> syms[j].addr <= syms[i].addr;
    } else if syms[i].addr <= addr {
      var j :| i < j < |syms| && syms[j].addr != syms[i].addr && syms[j].addr <= addr;
      assert syms[i].addr <= syms[j].addr && Candidate(syms[j], addr);
    }
  }

  /** On an ascending table, in which symbols may share an address, the scan settles on the
      address of an entry exactly if a binary search would end in its run, and on the first symbol
      of that run. So where addresses are distinct it finds the very entry; else only one that
      carries the same name as the first. */
  lemma AgreesWithBinarySearch(syms: seq<Symbol>, addr: U64, i: nat, first: nat, best: Option<Symbol>)
    requires Ascending(syms) && FirstOfRun(syms, first, i)
    requires 0 < syms[i].addr && best == Chosen(syms, addr)
    ensures best.Some? && best.value.addr == syms[i].addr <==> InLastRun(syms, addr, i)
    ensures best == Some(syms[i]) <==> InLastRun(syms, addr, i) && syms[i].name == syms[first].name
    ensures LastBelow(syms, addr, i)
       <==> InLastRun(syms, addr, i) && (i + 1 < |syms| ==> syms[i].addr < syms[i + 1].addr)
  {
    LastBelowEndsRun(syms, addr, i);
    ChosenIsNearest(syms, addr, best);
    NearestWhenSorted(syms, addr, first, i);
    if best.Some? {
      var n: nat :| Nearest(syms, addr, n) && syms[n] == best.value;
      SettlesOnFirst(syms, addr, n, first, i);
    } else {
      assert !Candidate(syms[first], addr);
    }
  }

  lemma SettlesOnFirst(syms: seq<Symbol>, addr: U64, n: nat, first: nat, i: nat)
    requires Ascending(syms) && FirstOfRun(syms, first, i) && Nearest(syms, addr, n)
    ensures syms[n].addr == syms[i].addr ==> n == first
    ensures Nearest(syms, addr, first) ==> n == first
  {
    assert first > 0 ==> forall j :: 0 <= j < first ==> syms[j].addr <= syms[first - 1].addr;
  }
}
