/** Depth-first cycle detection over a graph whose targets are all nodes. */
module CycleCheck {
  import opened Basics

  type Graph = map<string, set<string>>

  ghost predicate Closed(edges: Graph) {
    forall key :: key in edges ==> edges[key] <= edges.Keys
  }

  ghost predicate Path(edges: Graph, path: seq<string>) {
    && (forall i :: 0 <= i < |path| ==> path[i] in edges)
    && (forall i :: 0 <= i < |path| - 1 ==> path[i + 1] in edges[path[i]])
  }

  ghost predicate Cycle(edges: Graph, path: seq<string>) {
    |path| >= 2 && Path(edges, path) && path[0] == path[|path| - 1]
  }

  ghost predicate Cyclic(edges: Graph) {
    exists path :: Cycle(edges, path)
  }

  /** A finishing order: every edge leads to a node that finished earlier. */
  ghost predicate Finished(edges: Graph, order: seq<string>) {
    forall i :: 0 <= i < |order| ==> order[i] in edges && edges[order[i]] <= Members(order[..i])
  }

  ghost function Position(order: seq<string>, key: string): (i: nat)
    requires key in order
    ensures i < |order| && order[i] == key && key !in order[..i]
  {
    if order[0] == key then 0 else
      assert order == [order[0]] + order[1..];
      var i := Position(order[1..], key);
      assert order[..i + 1] == [order[0]] + order[1..][..i];
      i + 1
  }

  /** Along a path the finishing position strictly falls. */
  lemma {:induction false} PositionsFall(edges: Graph, order: seq<string>, path: seq<string>, j: nat)
    requires Finished(edges, order) && Path(edges, path) && j < |path|
    requires forall i :: 0 <= i < |path| ==> path[i] in order
    ensures Position(order, path[j]) + j <= Position(order, path[0])
  {
    if j > 0 {
      PositionsFall(edges, order, path, j - 1);
      var at := Position(order, path[j - 1]);
      assert path[j - 1 + 1] in edges[path[j - 1]];
      assert edges[order[at]] <= Members(order[..at]);
      assert path[j] in order[..at];
      PositionWithin(order, at, path[j]);
    }
  }

  lemma {:induction false} PositionWithin(order: seq<string>, n: nat, key: string)
    requires n <= |order| && key in order[..n]
    ensures key in order && Position(order, key) < n
  {
    var i := Position(order, key);
    var j :| 0 <= j < n && order[..n][j] == key;
    assert forall k :: 0 <= k < i ==> order[..i][k] == order[k];
  }

  lemma FinishedAcyclic(edges: Graph, order: seq<string>)
    requires Finished(edges, order) && Members(order) == edges.Keys
    ensures !Cyclic(edges)
  {
    if Cyclic(edges) {
      var path :| Cycle(edges, path);
      forall i | 0 <= i < |path| ensures path[i] in order {
        assert path[i] in Members(order);
      }
      PositionsFall(edges, order, path, |path| - 1);
    }
  }

  ghost predicate Reaches(edges: Graph, path: seq<string>, key: string) {
    path == [] || (path[|path| - 1] in edges && key in edges[path[|path| - 1]])
  }

  lemma PathExtends(edges: Graph, path: seq<string>, key: string)
    requires Path(edges, path) && key in edges && Reaches(edges, path, key)
    ensures Path(edges, path + [key]) && Members(path + [key]) == Members(path) + {key}
  {
    assert forall x :: x in path + [key] <==> x in path || x == key;
  }

  lemma CycleFound(edges: Graph, path: seq<string>, key: string)
    requires Path(edges, path) && key in Members(path) && Reaches(edges, path, key)
    ensures Cyclic(edges)
  {
    var i := Position(path, key);
    PathExtends(edges, path, key);
    assert Cycle(edges, path[i..] + [key]);
  }

  lemma FinishExtends(edges: Graph, order: seq<string>, key: string)
    requires Finished(edges, order) && key in edges && edges[key] <= Members(order)
    ensures Finished(edges, order + [key]) && Members(order + [key]) == Members(order) + {key}
  {
    var more := order + [key];
    forall i | 0 <= i < |more| ensures more[i] in edges && edges[more[i]] <= Members(more[..i]) {
      assert more[..i] == order[..i];
      assert order[..|order|] == order;
    }
    assert forall x :: x in more <==> x in order || x == key;
  }

  lemma EndReaches(edges: Graph, path: seq<string>, key: string)
    requires key in edges
    ensures forall target :: target in edges[key] ==> Reaches(edges, path + [key], target)
  {
  }

  class CycleSearch {
    const edges: Graph
    var visiting: set<string>
    var visited: set<string>
    ghost var order: seq<string>

    constructor (edges: Graph)
      ensures this.edges == edges && visiting == {} && visited == {} && order == []
    {
      this.edges := edges;
      visiting, visited, order := {}, {}, [];
    }

    ghost predicate Valid(path: seq<string>)
      reads this
    {
      && Closed(edges)
      && Path(edges, path) && visiting == Members(path)
      && Finished(edges, order) && visited == Members(order)
    }

    /** `path` is the chain of nodes being visited; `key` is reached from its end. */
    method Visit(key: string, ghost path: seq<string>) returns (cyclic: bool)
      requires Valid(path) && key in edges
      requires Reaches(edges, path, key)
      modifies this
      ensures cyclic ==> Cyclic(edges)
      ensures !cyclic ==> Valid(path) && visiting == old(visiting)
      ensures !cyclic ==> key in visited && old(visited) <= visited
      decreases edges.Keys - visiting
    {
      hide Path, Finished, Members, Cyclic;
      if key in visiting {
        CycleFound(edges, path, key);
        return true;
      }
      if key in visited {
        return false;
      }
      ghost var extended := path + [key];
      PathExtends(edges, path, key);
      EndReaches(edges, path, key);
      hide Reaches;
      visiting := visiting + {key};
      var rest := edges[key];
      while rest != {}
        invariant rest <= edges[key] <= visited + rest
        invariant Valid(extended) && visiting == old(visiting) + {key}
        invariant old(visited) <= visited
        decreases |rest|
      {
        var target :| target in rest;
        var found := Visit(target, extended);
        if found {
          return true;
        }
        rest := rest - {target};
      }
      FinishExtends(edges, order, key);
      visiting := visiting - {key};
      visited := visited + {key};
      order := order + [key];
      return false;
    }
  }

  /** `_has_cycle` is exact on every closed graph. */
  method HasCycle(edges: Graph) returns (cyclic: bool)
    requires Closed(edges)
    ensures cyclic <==> Cyclic(edges)
  {
    var search := new CycleSearch(edges);
    var rest := edges.Keys;
    while rest != {}
      invariant fresh(search) && search.edges == edges && rest <= edges.Keys
      invariant search.Valid([]) && edges.Keys == search.visited + rest
      decreases |rest|
    {
      var key :| key in rest;
      var found := search.Visit(key, []);
      if found {
        return true;
      }
      rest := rest - {key};
    }
    FinishedAcyclic(edges, search.order);
    return false;
  }
}
