/** Byte counters added up by name or by pair of names, in cells that are updated in place. */
module ByteTallies {
  import opened Machine
  import opened Sums

  datatype Bytes = Bytes(tx: u64, rx: u64)

  datatype Direction = Transmitted | Received

  const NO_BYTES := Bytes(0, 0)

  function Plus(a: Bytes, b: Bytes): Bytes {
    Bytes(Add64(a.tx, b.tx), Add64(a.rx, b.rx))
  }

  type Tally = map<string, Bytes>

  function AddAt(v: Tally, k: string, b: Bytes): Tally {
    v[k := Plus(if k in v then v[k] else NO_BYTES, b)]
  }

  class ByteCell {
    const source: string
    const destination: string
    var txBytes: u64
    var rxBytes: u64

    constructor (source: string, destination: string)
      ensures this.source == source && this.destination == destination
      ensures Value() == NO_BYTES
    {
      this.source, this.destination := source, destination;
      txBytes, rxBytes := 0, 0;
    }

    function Value(): Bytes
      reads this
    {
      Bytes(txBytes, rxBytes)
    }
  }

  class ByteTable {
    var cells: map<string, ByteCell>
    ghost var Repr: set<ByteCell>

    ghost predicate Valid()
      reads this
    {
      && (forall k :: k in cells ==> cells[k] in Repr)
      && (forall k, l :: k in cells && l in cells && k != l ==> cells[k] != cells[l])
    }

    ghost function View(): Tally
      requires Valid()
      reads this, Repr
    {
      map k | k in cells :: cells[k].Value()
    }

    lemma ViewAt()
      requires Valid()
      ensures View().Keys == cells.Keys
      ensures forall k :: k in cells ==> View()[k] == cells[k].Value()
    {
    }

    constructor ()
      ensures Valid() && Repr == {} && cells == map[] && View() == map[]
    {
      cells := map[];
      Repr := {};
    }

    /** Adds to the cell of a key; the first use of a key creates its cell with the given names. */
    method Add(k: string, source: string, destination: string, tx: u64, rx: u64)
      requires Valid()
      modifies this, Repr
      ensures Valid() && fresh(Repr - old(Repr))
      ensures View() == AddAt(old(View()), k, Bytes(tx, rx))
      ensures cells.Keys == old(cells.Keys) + {k}
      ensures forall l :: l in old(cells) ==> cells[l] == old(cells)[l]
      ensures k !in old(cells) ==> cells[k].source == source && cells[k].destination == destination
    {
      hide Plus, View;
      Provide(k, source, destination);
      Increase(k, tx, rx);
    }

    /** Gives a key that has none a cell with the given names. */
    method Provide(k: string, source: string, destination: string)
      requires Valid()
      modifies this
      ensures Valid() && fresh(Repr - old(Repr)) && k in View()
      ensures View() == if k in old(View()) then old(View()) else old(View())[k := NO_BYTES]
      ensures cells.Keys == old(cells.Keys) + {k}
      ensures forall l :: l in old(cells) ==> cells[l] == old(cells)[l]
      ensures k !in old(cells) ==> cells[k].source == source && cells[k].destination == destination
    {
      if k !in cells {
        var c := new ByteCell(source, destination);
        cells := cells[k := c];
        Repr := Repr + {c};
      }
    }

    method Increase(k: string, tx: u64, rx: u64)
      requires Valid() && k in cells
      modifies Repr
      ensures k in old(View()) && Valid() && View() == old(View())[k := Plus(old(View())[k], Bytes(tx, rx))]
    {
      hide Add64;
      var c := cells[k];
      c.txBytes := Add64(c.txBytes, tx);
      c.rxBytes := Add64(c.rxBytes, rx);
      assert View() == old(View())[k := Plus(old(View())[k], Bytes(tx, rx))];
    }
  }

  // What a tally says: transmitted bytes grouped by one name of each item, received bytes by another.

  ghost function Names<T>(items: set<T>, name: T -> string): set<string> {
    set x | x in items :: name(x)
  }

  ghost predicate TalliedAt<T>(b: Bytes, items: set<T>, txName: T -> string, rxName: T -> string,
                               tx: T -> int, rx: T -> int, n: string)
  {
    && b.tx == Wrap64(SumSet(Class(items, txName, n), tx))
    && b.rx == Wrap64(SumSet(Class(items, rxName, n), rx))
  }

  ghost predicate Tallied<T>(v: Tally, items: set<T>, txName: T -> string, rxName: T -> string,
                             tx: T -> int, rx: T -> int)
  {
    && v.Keys == Names(items, txName) + Names(items, rxName)
    && forall n :: n in v ==> TalliedAt(v[n], items, txName, rxName, tx, rx, n)
  }

  lemma ClassAdd<T(!new)>(done: set<T>, x: T, g: T -> string, n: string, f: T -> int)
    requires x !in done
    ensures SumSet(Class(done + {x}, g, n), f) ==
            SumSet(Class(done, g, n), f) + (if g(x) == n then f(x) else 0)
  {
    if g(x) == n {
      assert Class(done + {x}, g, n) == Class(done, g, n) + {x};
      SumAdd(Class(done, g, n), f, x);
    } else {
      assert Class(done + {x}, g, n) == Class(done, g, n);
    }
  }

  lemma ClassEmpty<T(!new)>(done: set<T>, g: T -> string, n: string, f: T -> int)
    requires n !in Names(done, g)
    ensures SumSet(Class(done, g, n), f) == 0
  {
    assert Class(done, g, n) == {};
  }

  lemma SideItem<T(!new)>(done: set<T>, x: T, g: T -> string, n: string, f: T -> int)
    requires x !in done && 0 <= f(x) < TWO64
    ensures Wrap64(SumSet(Class(done + {x}, g, n), f)) ==
            (if g(x) == n then Add64(Wrap64(SumSet(Class(done, g, n), f)), f(x))
             else Wrap64(SumSet(Class(done, g, n), f)))
  {
    hide Wrap64, Add64;
    ClassAdd(done, x, g, n, f);
    WrapNext64(SumSet(Class(done, g, n), f), f(x));
  }

  function AddItem(v: Tally, txName: string, rxName: string, b: Bytes): Tally {
    AddAt(AddAt(v, txName, Bytes(b.tx, 0)), rxName, Bytes(0, b.rx))
  }

  lemma TallyItemAt<T(!new)>(v: Tally, done: set<T>, x: T, txName: T -> string, rxName: T -> string,
                             tx: T -> int, rx: T -> int, b: Bytes, n: string)
    requires Tallied(v, done, txName, rxName, tx, rx)
    requires x !in done && tx(x) == b.tx && rx(x) == b.rx
    requires n in v || n == txName(x) || n == rxName(x)
    ensures n in AddItem(v, txName(x), rxName(x), b)
    ensures TalliedAt(AddItem(v, txName(x), rxName(x), b)[n], done + {x}, txName, rxName, tx, rx, n)
  {
    SideItem(done, x, txName, n, tx);
    SideItem(done, x, rxName, n, rx);
    if n !in v {
      ClassEmpty(done, txName, n, tx);
      ClassEmpty(done, rxName, n, rx);
    }
    Added(v, n, txName(x), tx(x), rxName(x), rx(x));
  }

  /** One more item: its bytes are added under its two names. */
  lemma TallyItem<T(!new)>(v: Tally, done: set<T>, x: T, txName: T -> string, rxName: T -> string,
                           tx: T -> int, rx: T -> int, b: Bytes)
    requires Tallied(v, done, txName, rxName, tx, rx)
    requires x !in done && tx(x) == b.tx && rx(x) == b.rx
    ensures Tallied(AddItem(v, txName(x), rxName(x), b), done + {x}, txName, rxName, tx, rx)
  {
    var w := AddItem(v, txName(x), rxName(x), b);
    assert w.Keys == v.Keys + {txName(x), rxName(x)};
    assert Names(done + {x}, txName) == Names(done, txName) + {txName(x)};
    assert Names(done + {x}, rxName) == Names(done, rxName) + {rxName(x)};
    forall n | n in w ensures TalliedAt(w[n], done + {x}, txName, rxName, tx, rx, n) {
      TallyItemAt(v, done, x, txName, rxName, tx, rx, b, n);
    }
  }

  lemma Added(v: Tally, n: string, k: string, tx: u64, l: string, rx: u64)
    requires n in v || n == k || n == l
    ensures
      var w, old' := AddAt(AddAt(v, k, Bytes(tx, 0)), l, Bytes(0, rx)), if n in v then v[n] else NO_BYTES;
      && n in w
      && w[n].tx == (if k == n then Add64(old'.tx, tx) else old'.tx)
      && w[n].rx == (if l == n then Add64(old'.rx, rx) else old'.rx)
  {
  }

  /** When both names coincide one addition does. */
  lemma AddBoth(v: Tally, k: string, b: Bytes)
    ensures AddItem(v, k, k, b) == AddAt(v, k, b)
  {
  }
}
