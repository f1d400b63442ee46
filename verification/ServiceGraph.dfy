/** The service dependency graph: how often each pair of names was seen. */
module ServiceGraph {
  import opened Folds

  type Pair = (string, string)

  type Counts = map<Pair, nat>

  function AddCall(c: Counts, call: Pair): Counts {
    c[call := (if call in c then c[call] else 0) + 1]
  }

  function CountCalls(calls: seq<Pair>): Counts {
    Fold(AddCall, map[], calls)
  }

  /** The counts are those of the calls. */
  lemma {:induction false} CountsAreMultiplicities(calls: seq<Pair>, p: Pair)
    ensures p in CountCalls(calls) <==> p in calls
    ensures p in CountCalls(calls) ==> CountCalls(calls)[p] == multiset(calls)[p]
    decreases |calls|
  {
    if calls != [] {
      var init, last := calls[..|calls| - 1], calls[|calls| - 1];
      CountsAreMultiplicities(init, p);
      assert calls == init + [last];
    }
  }

  class Edge {
    const source: string
    const destination: string
    var count: nat

    constructor (source: string, destination: string)
      ensures this.source == source && this.destination == destination && count == 1
    {
      this.source, this.destination, count := source, destination, 1;
    }
  }

  class Graph {
    var edges: map<string, map<string, Edge>>
    ghost var Contents: Counts
    ghost var Repr: set<Edge>

    /** Every edge carries its own two names, so no two pairs share one, and its count is the
        pair's count. */
    ghost predicate Valid()
      reads this, Repr
    {
      && (forall p :: p in Contents ==> Leads(p))
      && (forall s, d :: s in edges && d in edges[s] ==> (s, d) in Contents)
    }

    /** The maps lead from the two names to the pair's edge. */
    ghost predicate Leads(p: Pair)
      reads this, Repr
    {
      && p in Contents && p.0 in edges && p.1 in edges[p.0]
      && var e := edges[p.0][p.1];
         e in Repr && e.source == p.0 && e.destination == p.1 && e.count == Contents[p]
    }

    constructor ()
      ensures Valid() && Contents == map[] && Repr == {}
    {
      edges := map[];
      Contents := map[];
      Repr := {};
    }

    method AddEdge(src: string, dst: string)
      requires Valid()
      modifies this, Repr
      ensures Valid() && fresh(Repr - old(Repr))
      ensures Contents == AddCall(old(Contents), (src, dst))
    {
      hide AddCall;
      if src !in edges {
        AddRow(src);
      }
      if dst in edges[src] {
        Increment(edges[src][dst]);
      } else {
        var e := new Edge(src, dst);
        Insert(e);
      }
    }

    method AddRow(src: string)
      requires Valid() && src !in edges
      modifies `edges
      ensures Valid() && edges == old(edges)[src := map[]]
    {
      edges := edges[src := map[]];
    }

    method Increment(e: Edge)
      requires Valid() && (e.source, e.destination) in Contents && e == edges[e.source][e.destination]
      modifies `Contents, e
      ensures Valid() && Contents == AddCall(old(Contents), (e.source, e.destination))
    {
      ghost var call, before := (e.source, e.destination), Contents;
      e.count := e.count + 1;
      Contents := Contents[call := Contents[call] + 1];
      forall p | p in Contents ensures Leads(p) {
        assert p in before && old(Leads(p));
      }
    }

    method Insert(e: Edge)
      requires Valid() && e.count == 1 && e !in Repr
      requires e.source in edges && e.destination !in edges[e.source]
      modifies this
      ensures Valid() && Repr == old(Repr) + {e}
      ensures Contents == AddCall(old(Contents), (e.source, e.destination))
    {
      ghost var call, before := (e.source, e.destination), Contents;
      assert call !in Contents;
      edges := edges[e.source := edges[e.source][e.destination := e]];
      Repr := Repr + {e};
      Contents := Contents[call := 1];
      forall p | p in Contents ensures Leads(p) {
        assert p == call || (p in before && old(Leads(p)));
      }
    }

    /** All edges, each once, in the order in which Go's maps yield them. */
    method Edges() returns (result: seq<Edge>)
      requires Valid()
      ensures forall i :: 0 <= i < |result| ==>
                && (result[i].source, result[i].destination) in Contents
                && result[i].count == Contents[(result[i].source, result[i].destination)]
      ensures forall i, j :: 0 <= i < j < |result| ==>
                (result[i].source, result[i].destination) != (result[j].source, result[j].destination)
      ensures forall p :: p in Contents ==>
                exists i :: 0 <= i < |result| && p == (result[i].source, result[i].destination)
    {
      result := [];
      var todo := edges.Keys;
      NothingBefore();
      while todo != {}
        invariant todo <= edges.Keys
        invariant Lists(result, PairsBut(todo))
      {
        var s :| s in todo;
        result := AppendRow(result, s, PairsBut(todo));
        OneRowLess(todo, s);
        todo := todo - {s};
      }
      assert PairsBut({}) == Contents.Keys;
    }

    /** The inner loop of Edges. */
    method AppendRow(start: seq<Edge>, s: string, ghost before: set<Pair>) returns (result: seq<Edge>)
      requires Valid() && s in edges
      requires Lists(start, before) && forall p :: p in before ==> p.0 != s
      ensures Lists(result, before + RowPairs(s, edges[s].Keys))
    {
      hide Lists;
      result := start;
      var inner := edges[s].Keys;
      ghost var done: set<string> := {};
      assert before + RowPairs(s, {}) == before;
      while inner != {}
        invariant inner <= edges[s].Keys && done == edges[s].Keys - inner
        invariant Lists(result, before + RowPairs(s, done))
      {
        var d :| d in inner;
        ListsOneMore(result, before + RowPairs(s, done), edges[s][d], (s, d));
        assert before + RowPairs(s, done + {d}) == before + RowPairs(s, done) + {(s, d)};
        result := result + [edges[s][d]];
        done := done + {d};
        inner := inner - {d};
      }
      assert done == edges[s].Keys;
    }

    ghost function RowPairs(s: string, ds: set<string>): set<Pair> {
      set d | d in ds :: (s, d)
    }

    /** The pairs whose source has been visited. */
    ghost function PairsBut(todo: set<string>): set<Pair>
      reads this
    {
      set p | p in Contents && p.0 !in todo
    }

    lemma NothingBefore()
      requires Valid()
      ensures PairsBut(edges.Keys) == {} && Lists([], {})
    {
    }

    lemma OneRowLess(todo: set<string>, s: string)
      requires Valid() && s in todo && s in edges
      ensures PairsBut(todo - {s}) == PairsBut(todo) + RowPairs(s, edges[s].Keys)
    {
    }

    /** `result` holds the edges of exactly the pairs in `ps`, each once. */
    ghost predicate Lists(result: seq<Edge>, ps: set<Pair>)
      reads this
    {
      && (forall i :: 0 <= i < |result| ==>
            var p := (result[i].source, result[i].destination);
            p in ps && p in Contents && p.0 in edges && p.1 in edges[p.0] && result[i] == edges[p.0][p.1])
      && (forall i, j :: 0 <= i < j < |result| ==>
            (result[i].source, result[i].destination) != (result[j].source, result[j].destination))
      && (forall p :: p in ps ==> exists i :: 0 <= i < |result| && p == (result[i].source, result[i].destination))
    }

    lemma ListsOneMore(result: seq<Edge>, ps: set<Pair>, e: Edge, p: Pair)
      requires Lists(result, ps)
      requires p in Contents && p.0 in edges && p.1 in edges[p.0] && p !in ps
      requires e == edges[p.0][p.1] && p == (e.source, e.destination)
      ensures Lists(result + [e], ps + {p})
    {
      var more := result + [e];
      forall q | q in ps + {p} ensures exists i :: 0 <= i < |more| && q == (more[i].source, more[i].destination) {
        if q == p {
          assert more[|result|] == e;
        } else {
          var i :| 0 <= i < |result| && q == (result[i].source, result[i].destination);
          assert more[i] == result[i];
        }
      }
    }
  }
}
