/** Retired station identities: validation of the tombstone replacement graph and automatic redirects over it. */
module CatalogGraph {
  import opened Common

  type Id = string
  type Graph = map<Id, seq<Id>>

  datatype Tombstone = Tombstone(id: Id, reason: string, replacements: seq<Id>)

  datatype Catalog = Catalog(stations: set<Id>, tombstones: seq<Tombstone>)

  datatype CatalogError = IdentitiesInvalid | GraphInvalid | GraphCyclic

  datatype Replacement = Unknown | Removed | Redirect(to: Id) | Ambiguous(choices: seq<Id>)

  predicate KebabChar(c: char) {
    'a' <= c <= 'z' || '0' <= c <= '9' || c == '-'
  }

  predicate ValidId(value: string, maximum: nat) {
    && value != "" && |value| <= maximum
    && value[0] != '-' && value[|value| - 1] != '-'
    && (forall i :: 0 <= i < |value| ==> KebabChar(value[i]))
    && (forall i :: 0 <= i < |value| - 1 ==> !(value[i] == '-' && value[i + 1] == '-'))
  }

  function Ids(ts: seq<Tombstone>): set<Id> {
    set i | 0 <= i < |ts| :: ts[i].id
  }

  predicate DistinctSeq(ids: seq<Id>) {
    forall i, j :: 0 <= i < j < |ids| ==> ids[i] != ids[j]
  }

  predicate ValidShape(t: Tombstone) {
    && ValidId(t.id, 96)
    && match t.reason
       case "removed" => |t.replacements| == 0
       case "merged" => |t.replacements| == 1
       case "split" => |t.replacements| >= 2
       case _ => false
  }

  predicate ValidTombstone(c: Catalog, t: Tombstone) {
    && ValidShape(t)
    && (forall i :: 0 <= i < |t.replacements| ==>
          ValidId(t.replacements[i], 96) && t.replacements[i] != t.id
          && (t.replacements[i] in c.stations || t.replacements[i] in Ids(c.tombstones)))
    && DistinctSeq(t.replacements)
  }

  function GraphOf(ts: seq<Tombstone>): Graph {
    if ts == [] then map[] else GraphOf(ts[..|ts| - 1])[ts[|ts| - 1].id := ts[|ts| - 1].replacements]
  }

  // ---------------------------------------------------------------------------------------------
  // Cycle detection

  /** The recursive search: a node already on the path closes a cycle. */
  predicate CycleFrom(graph: Graph, id: Id, path: set<Id>)
    decreases |graph.Keys - path|
  {
    id in path ||
    (id in graph && (
      assert graph.Keys - (path + {id}) == (graph.Keys - path) - {id};
      exists i :: 0 <= i < |graph[id]| && CycleFrom(graph, graph[id][i], path + {id})))
  }

  /** The search over one shared, mutated path set, which it leaves as it found it. */
  method HasCycle(graph: Graph, id: Id, path: set<Id>) returns (found: bool, restored: set<Id>)
    ensures found == CycleFrom(graph, id, path)
    ensures restored == path
    decreases |graph.Keys - path|
  {
    if id in path {
      return true, path;
    }
    restored := path + {id};
    found := false;
    if id in graph {
      assert graph.Keys - (path + {id}) == (graph.Keys - path) - {id};
      var children := graph[id];
      var i := 0;
      while i < |children| && !found
        invariant 0 <= i <= |children|
        invariant restored == path + {id}
        invariant found ==> exists j :: 0 <= j < |children| && CycleFrom(graph, children[j], path + {id})
        invariant !found ==> forall j :: 0 <= j < i ==> !CycleFrom(graph, children[j], path + {id})
      {
        found, restored := HasCycle(graph, children[i], restored);
        i := i + 1;
      }
    }
    restored := restored - {id};
  }

  /** A sequence of nodes along replacement edges. */
  ghost predicate Walk(graph: Graph, w: seq<Id>) {
    forall i :: 0 <= i < |w| - 1 ==> w[i] in graph && w[i + 1] in graph[w[i]]
  }

  ghost predicate Repeats(w: seq<Id>) {
    exists i, j :: 0 <= i < j < |w| && w[i] == w[j]
  }

  ghost predicate Meets(w: seq<Id>, path: set<Id>) {
    exists i :: 0 <= i < |w| && w[i] in path
  }

  /** A walk that meets the extended path, or repeats, still does after its first node is put back in front. */
  lemma LongerWalk(graph: Graph, id: Id, tail: seq<Id>, path: set<Id>)
    requires tail != [] && Walk(graph, tail) && id in graph && tail[0] in graph[id]
    requires Meets(tail, path + {id}) || Repeats(tail)
    ensures Walk(graph, [id] + tail) && (Meets([id] + tail, path) || Repeats([id] + tail))
  {
    var w := [id] + tail;
    forall i | 0 <= i < |w| - 1 ensures w[i] in graph && w[i + 1] in graph[w[i]] {
      assert w[i + 1] == tail[i] && (i > 0 ==> w[i] == tail[i - 1]);
    }
    if Repeats(tail) {
      var a, b :| 0 <= a < b < |tail| && tail[a] == tail[b];
      assert w[a + 1] == w[b + 1];
    } else {
      var k :| 0 <= k < |tail| && tail[k] in path + {id};
      assert w[k + 1] in path || w[0] == w[k + 1];
    }
  }

  lemma {:induction false} SearchIsSound(graph: Graph, id: Id, path: set<Id>) returns (w: seq<Id>)
    requires CycleFrom(graph, id, path)
    ensures w != [] && w[0] == id && Walk(graph, w) && (Meets(w, path) || Repeats(w))
    decreases |graph.Keys - path|
  {
    if id in path {
      w := [id];
    } else {
      assert graph.Keys - (path + {id}) == (graph.Keys - path) - {id};
      var i :| 0 <= i < |graph[id]| && CycleFrom(graph, graph[id][i], path + {id});
      var tail := SearchIsSound(graph, graph[id][i], path + {id});
      w := [id] + tail;
      LongerWalk(graph, id, tail, path);
    }
  }

  lemma {:induction false} SearchIsComplete(graph: Graph, path: set<Id>, w: seq<Id>)
    requires w != [] && Walk(graph, w) && (Meets(w, path) || Repeats(w))
    ensures CycleFrom(graph, w[0], path)
    decreases |w|
  {
    if w[0] !in path {
      var tail := w[1..];
      assert forall k :: 0 <= k < |tail| ==> tail[k] == w[k + 1];
      if Meets(w, path) {
        var k :| 0 <= k < |w| && w[k] in path;
        assert tail[k - 1] in path + {w[0]};
      } else {
        var a, b :| 0 <= a < b < |w| && w[a] == w[b];
        if a == 0 {
          assert tail[b - 1] in path + {w[0]};
        } else {
          assert tail[a - 1] == tail[b - 1];
        }
      }
      SearchIsComplete(graph, path + {w[0]}, tail);
      assert w[1] in graph[w[0]];
      var i :| 0 <= i < |graph[w[0]]| && graph[w[0]][i] == w[1];
      assert CycleFrom(graph, graph[w[0]][i], path + {w[0]});
    }
  }

  /** The search from a node reports a cycle exactly when some walk from it visits a node twice. */
  lemma CycleDetectionIsExact(graph: Graph, id: Id)
    ensures CycleFrom(graph, id, {}) <==> exists w :: w != [] && w[0] == id && Walk(graph, w) && Repeats(w)
  {
    if CycleFrom(graph, id, {}) {
      var w := SearchIsSound(graph, id, {});
      assert !Meets(w, {});
    }
    forall w | w != [] && w[0] == id && Walk(graph, w) && Repeats(w) ensures CycleFrom(graph, id, {}) {
      SearchIsComplete(graph, {}, w);
    }
  }

  // ---------------------------------------------------------------------------------------------
  // Validation of the tombstones of one catalog document

  ghost predicate Acyclic(graph: Graph) {
    forall w :: Walk(graph, w) ==> !Repeats(w)
  }

  function IdSeq(ts: seq<Tombstone>): seq<Id> {
    seq(|ts|, i requires 0 <= i < |ts| => ts[i].id)
  }

  predicate ValidIdentities(c: Catalog) {
    && DistinctSeq(IdSeq(c.tombstones))
    && (forall i :: 0 <= i < |c.tombstones| ==> c.tombstones[i].id !in c.stations)
  }

  ghost predicate ValidCatalog(c: Catalog) {
    && ValidIdentities(c)
    && (forall i :: 0 <= i < |c.tombstones| ==> ValidTombstone(c, c.tombstones[i]))
    && Acyclic(GraphOf(c.tombstones))
  }

  /** A set built from a sequence has its length exactly when no element repeats. */
  lemma {:induction false} CountingFindsDuplicates(ts: seq<Tombstone>)
    ensures |Ids(ts)| <= |ts|
    ensures |Ids(ts)| == |ts| <==> DistinctSeq(IdSeq(ts))
  {
    if ts != [] {
      var front := ts[..|ts| - 1];
      var last := ts[|ts| - 1].id;
      assert forall i :: 0 <= i < |front| ==> front[i] == ts[i];
      assert Ids(ts) == Ids(front) + {last};
      CountingFindsDuplicates(front);
      if last in Ids(front) {
        var i :| 0 <= i < |front| && front[i].id == last;
        assert IdSeq(ts)[i] == IdSeq(ts)[|front|];
      } else if DistinctSeq(IdSeq(front)) {
        forall i, j | 0 <= i < j < |ts| ensures IdSeq(ts)[i] != IdSeq(ts)[j] {
          assert front[i].id in Ids(front);
          assert j < |front| ==> IdSeq(front)[i] != IdSeq(front)[j];
        }
      } else {
        var i, j :| 0 <= i < j < |front| && IdSeq(front)[i] == IdSeq(front)[j];
        assert IdSeq(ts)[i] == IdSeq(ts)[j];
      }
    }
  }

  lemma {:induction false} GraphHoldsTombstones(ts: seq<Tombstone>)
    ensures GraphOf(ts).Keys == Ids(ts)
    ensures DistinctSeq(IdSeq(ts)) ==> forall i :: 0 <= i < |ts| ==> ts[i].id in GraphOf(ts) && GraphOf(ts)[ts[i].id] == ts[i].replacements
  {
    if ts != [] {
      var front := ts[..|ts| - 1];
      assert forall i :: 0 <= i < |front| ==> front[i] == ts[i];
      assert Ids(ts) == Ids(front) + {ts[|ts| - 1].id};
      GraphHoldsTombstones(front);
      if DistinctSeq(IdSeq(ts)) {
        assert DistinctSeq(IdSeq(front)) by {
          assert forall i :: 0 <= i < |front| ==> IdSeq(front)[i] == IdSeq(ts)[i];
        }
        forall i | 0 <= i < |front| ensures ts[i].id != ts[|ts| - 1].id {
          assert IdSeq(ts)[i] != IdSeq(ts)[|ts| - 1];
        }
      }
    }
  }

  lemma AcyclicFromEveryKey(graph: Graph)
    requires forall id :: id in graph ==> !CycleFrom(graph, id, {})
    ensures Acyclic(graph)
  {
    forall w | Walk(graph, w) ensures !Repeats(w) {
      if Repeats(w) {
        assert w[0] in graph;
        SearchIsComplete(graph, {}, w);
      }
    }
  }

  lemma CyclicFromOneKey(graph: Graph, id: Id)
    requires CycleFrom(graph, id, {})
    ensures !Acyclic(graph)
  {
    var w := SearchIsSound(graph, id, {});
  }

  /** The counting test of the document's identities. */
  lemma IdentityTestIsExact(c: Catalog)
    ensures |Ids(c.tombstones)| == |c.tombstones| && Ids(c.tombstones) !! c.stations <==> ValidIdentities(c)
  {
    CountingFindsDuplicates(c.tombstones);
    if ValidIdentities(c) {
      assert Ids(c.tombstones) !! c.stations;
    } else if Ids(c.tombstones) !! c.stations {
      forall i | 0 <= i < |c.tombstones| ensures c.tombstones[i].id !in c.stations {
        assert c.tombstones[i].id in Ids(c.tombstones);
      }
    }
  }

  method BuildGraph(c: Catalog) returns (r: Option<Graph>)
    ensures r.Some? <==> forall i :: 0 <= i < |c.tombstones| ==> ValidTombstone(c, c.tombstones[i])
    ensures r.Some? ==> r.value == GraphOf(c.tombstones)
  {
    var ts := c.tombstones;
    var graph: Graph := map[];
    for i := 0 to |ts|
      invariant forall j :: 0 <= j < i ==> ValidTombstone(c, ts[j])
      invariant graph == GraphOf(ts[..i])
    {
      assert ts[..i + 1][..i] == ts[..i];
      if !ValidTombstone(c, ts[i]) {
        return None;
      }
      graph := graph[ts[i].id := ts[i].replacements];
    }
    assert ts[..|ts|] == ts;
    r := Some(graph);
  }

  method AnyCycle(ts: seq<Tombstone>, graph: Graph) returns (cyclic: bool)
    requires graph.Keys == Ids(ts)
    ensures cyclic <==> !Acyclic(graph)
  {
    for i := 0 to |ts|
      invariant forall j :: 0 <= j < i ==> !CycleFrom(graph, ts[j].id, {})
    {
      var found, _ := HasCycle(graph, ts[i].id, {});
      if found {
        CyclicFromOneKey(graph, ts[i].id);
        return true;
      }
    }
    AcyclicFromEveryKey(graph);
    cyclic := false;
  }

  // ---------------------------------------------------------------------------------------------
  // What an accepted document is, told from its fields

  /** Lower-case kebab case of at most 96 characters. */
  ghost predicate Kebab(id: Id) {
    && 1 <= |id| <= 96 && id[0] != '-' && id[|id| - 1] != '-'
    && (forall i :: 0 <= i < |id| ==> 'a' <= id[i] <= 'z' || '0' <= id[i] <= '9' || id[i] == '-')
    && (forall i :: 0 < i < |id| ==> id[i] == '-' ==> id[i - 1] != '-')
  }

  ghost predicate Retired(c: Catalog, id: Id) {
    exists i :: 0 <= i < |c.tombstones| && c.tombstones[i].id == id
  }

  ghost predicate PlainIdentities(c: Catalog) {
    && (forall i, j :: 0 <= i < j < |c.tombstones| ==> c.tombstones[i].id != c.tombstones[j].id)
    && (forall i :: 0 <= i < |c.tombstones| ==> c.tombstones[i].id !in c.stations)
  }

  ghost predicate PlainTombstone(c: Catalog, t: Tombstone) {
    && Kebab(t.id)
    && (|| (t.reason == "removed" && t.replacements == [])
        || (t.reason == "merged" && |t.replacements| == 1)
        || (t.reason == "split" && |t.replacements| >= 2))
    && (forall i :: 0 <= i < |t.replacements| ==>
          Kebab(t.replacements[i]) && t.replacements[i] != t.id && (t.replacements[i] in c.stations || Retired(c, t.replacements[i])))
    && (forall i, j :: 0 <= i < j < |t.replacements| ==> t.replacements[i] != t.replacements[j])
  }

  /** Each identity of the sequence is retired in favour of the next. */
  ghost predicate Succession(c: Catalog, w: seq<Id>) {
    forall i :: 0 <= i < |w| - 1 ==> Succeeds(c, w[i], w[i + 1])
  }

  ghost predicate Succeeds(c: Catalog, id: Id, next: Id) {
    exists i :: 0 <= i < |c.tombstones| && c.tombstones[i].id == id && next in c.tombstones[i].replacements
  }

  lemma KebabIsValid(id: Id)
    ensures ValidId(id, 96) <==> Kebab(id)
  {
    if ValidId(id, 96) {
      forall i | 0 < i < |id| ensures id[i] == '-' ==> id[i - 1] != '-' {
        assert !(id[i - 1] == '-' && id[i - 1 + 1] == '-');
      }
    }
    if Kebab(id) {
      forall i | 0 <= i < |id| - 1 ensures !(id[i] == '-' && id[i + 1] == '-') {
        assert id[i + 1] == '-' ==> id[i + 1 - 1] != '-';
      }
    }
  }

  lemma RetiredIsListed(c: Catalog, id: Id)
    ensures Retired(c, id) <==> id in Ids(c.tombstones)
  {
  }

  lemma PlainIsValid(c: Catalog, t: Tombstone)
    ensures ValidTombstone(c, t) <==> PlainTombstone(c, t)
  {
    KebabIsValid(t.id);
    forall i | 0 <= i < |t.replacements|
      ensures ValidId(t.replacements[i], 96) <==> Kebab(t.replacements[i])
      ensures Retired(c, t.replacements[i]) <==> t.replacements[i] in Ids(c.tombstones)
    {
      KebabIsValid(t.replacements[i]);
      RetiredIsListed(c, t.replacements[i]);
    }
  }

  lemma IdentitiesArePlain(c: Catalog)
    ensures ValidIdentities(c) <==> PlainIdentities(c)
  {
    var ids := IdSeq(c.tombstones);
    assert forall i :: 0 <= i < |c.tombstones| ==> ids[i] == c.tombstones[i].id;
  }

  lemma SuccessionIsWalk(c: Catalog, w: seq<Id>)
    requires PlainIdentities(c)
    ensures Succession(c, w) <==> Walk(GraphOf(c.tombstones), w)
  {
    var graph := GraphOf(c.tombstones);
    IdentitiesArePlain(c);
    GraphHoldsTombstones(c.tombstones);
    forall a, b ensures Succeeds(c, a, b) <==> a in graph && b in graph[a] {
      if a in graph {
        RetiredIsListed(c, a);
      }
    }
    if Succession(c, w) {
      forall i | 0 <= i < |w| - 1 ensures w[i] in graph && w[i + 1] in graph[w[i]] {
        assert Succeeds(c, w[i], w[i + 1]);
      }
    }
    if Walk(graph, w) {
      forall i | 0 <= i < |w| - 1 ensures Succeeds(c, w[i], w[i + 1]) {
        assert w[i] in graph && w[i + 1] in graph[w[i]];
      }
    }
  }

  /** A document is accepted, or refused with its error, exactly by its identities, its replacements and its successions. */
  method ValidateTombstones(c: Catalog) returns (r: Result<(), CatalogError>)
    ensures r.Ok? <==> ValidCatalog(c)
    ensures r == Err(IdentitiesInvalid) <==> !PlainIdentities(c)
    ensures r == Err(GraphInvalid) <==>
              PlainIdentities(c) && exists i :: 0 <= i < |c.tombstones| && !PlainTombstone(c, c.tombstones[i])
    ensures r == Err(GraphCyclic) <==>
              && PlainIdentities(c) && (forall i :: 0 <= i < |c.tombstones| ==> PlainTombstone(c, c.tombstones[i]))
              && exists w :: Succession(c, w) && Repeats(w)
  {
    IdentityTestIsExact(c);
    IdentitiesArePlain(c);
    if |Ids(c.tombstones)| != |c.tombstones| || !(Ids(c.tombstones) !! c.stations) {
      return Err(IdentitiesInvalid);
    }
    AllPlainIsAllValid(c);
    var graph := BuildGraph(c);
    if graph.None? {
      return Err(GraphInvalid);
    }
    GraphHoldsTombstones(c.tombstones);
    var cyclic := AnyCycle(c.tombstones, graph.value);
    CyclicIsSuccession(c);
    if cyclic {
      return Err(GraphCyclic);
    }
    r := Ok(());
  }

  lemma AllPlainIsAllValid(c: Catalog)
    ensures (forall i :: 0 <= i < |c.tombstones| ==> ValidTombstone(c, c.tombstones[i]))
            <==> (forall i :: 0 <= i < |c.tombstones| ==> PlainTombstone(c, c.tombstones[i]))
  {
    forall i | 0 <= i < |c.tombstones| ensures ValidTombstone(c, c.tombstones[i]) <==> PlainTombstone(c, c.tombstones[i]) {
      PlainIsValid(c, c.tombstones[i]);
    }
  }

  lemma CyclicIsSuccession(c: Catalog)
    requires PlainIdentities(c)
    ensures !Acyclic(GraphOf(c.tombstones)) <==> exists w :: Succession(c, w) && Repeats(w)
  {
    forall w ensures Succession(c, w) <==> Walk(GraphOf(c.tombstones), w) {
      SuccessionIsWalk(c, w);
    }
  }

  // ---------------------------------------------------------------------------------------------
  // Redirects

  function Find(ts: seq<Tombstone>, id: Id): Option<Tombstone> {
    if ts == [] then None else if ts[0].id == id then Some(ts[0]) else Find(ts[1..], id)
  }

  function ReplacementFor(c: Catalog, id: Id): Replacement {
    match Find(c.tombstones, id)
    case Some(t) =>
      if t.reason == "merged" && t.replacements != [] then Redirect(t.replacements[0])
      else if t.reason == "split" then Ambiguous(t.replacements)
      else Removed
    case None => Unknown
  }

  /** Automatic redirects followed in order. */
  ghost predicate RedirectWalk(c: Catalog, w: seq<Id>) {
    forall i :: 0 <= i < |w| - 1 ==> ReplacementFor(c, w[i]) == Redirect(w[i + 1])
  }

  lemma {:induction false} FindIsExact(ts: seq<Tombstone>, id: Id)
    ensures Find(ts, id).Some? <==> id in Ids(ts)
    ensures Find(ts, id).Some? ==> exists i :: 0 <= i < |ts| && ts[i] == Find(ts, id).value && ts[i].id == id
  {
    if ts != [] {
      FindIsExact(ts[1..], id);
      if ts[0].id == id {
        assert ts[0].id in Ids(ts);
      } else {
        assert forall i :: 0 <= i < |ts| - 1 ==> ts[1..][i] == ts[i + 1];
        if Find(ts, id).Some? {
          var i :| 0 <= i < |ts| - 1 && ts[1..][i] == Find(ts[1..], id).value && ts[1..][i].id == id;
          assert ts[i + 1] == Find(ts, id).value;
        }
        if id in Ids(ts) {
          var j :| 0 <= j < |ts| && ts[j].id == id;
          assert ts[1..][j - 1].id == id;
        }
      }
    }
  }

  lemma RedirectIsEdge(c: Catalog, id: Id)
    requires ValidCatalog(c) && ReplacementFor(c, id).Redirect?
    ensures id in GraphOf(c.tombstones) && ReplacementFor(c, id).to in GraphOf(c.tombstones)[id]
    ensures ReplacementFor(c, id).to in c.stations || ReplacementFor(c, id).to in Ids(c.tombstones)
  {
    FindIsExact(c.tombstones, id);
    GraphHoldsTombstones(c.tombstones);
    var i :| 0 <= i < |c.tombstones| && c.tombstones[i] == Find(c.tombstones, id).value && c.tombstones[i].id == id;
    assert ValidTombstone(c, c.tombstones[i]);
  }

  lemma {:induction false} DistinctFitsIn(w: seq<Id>, s: set<Id>)
    requires DistinctSeq(w) && forall i :: 0 <= i < |w| ==> w[i] in s
    ensures |w| <= |s|
  {
    if w != [] {
      DistinctFitsIn(w[..|w| - 1], s - {w[|w| - 1]});
    }
  }

  /** In a validated catalog no chain of redirects is longer than the number of tombstones. */
  lemma RedirectWalksAreShort(c: Catalog, w: seq<Id>)
    requires ValidCatalog(c) && w != [] && RedirectWalk(c, w)
    ensures |w| - 1 <= |c.tombstones|
  {
    var front := w[..|w| - 1];
    var graph := GraphOf(c.tombstones);
    forall i | 0 <= i < |w| - 1 ensures w[i] in graph && w[i + 1] in graph[w[i]] {
      assert ReplacementFor(c, w[i]) == Redirect(w[i + 1]);
      RedirectIsEdge(c, w[i]);
    }
    assert Walk(graph, w) && !Repeats(w);
    GraphHoldsTombstones(c.tombstones);
    DistinctFitsIn(front, Ids(c.tombstones));
    CountingFindsDuplicates(c.tombstones);
  }

  /** Following redirects from any known identity ends at an active station or at a removed or split identity. */
  lemma {:induction false} RedirectsEnd(c: Catalog, w: seq<Id>) returns (full: seq<Id>)
    requires ValidCatalog(c) && w != [] && RedirectWalk(c, w)
    requires w[|w| - 1] in c.stations || w[|w| - 1] in Ids(c.tombstones)
    ensures w <= full && RedirectWalk(c, full) && |full| - 1 <= |c.tombstones|
    ensures var last := full[|full| - 1];
            if last in c.stations then ReplacementFor(c, last).Unknown?
            else ReplacementFor(c, last).Removed? || ReplacementFor(c, last).Ambiguous?
    decreases |c.tombstones| + 1 - |w|
  {
    RedirectWalksAreShort(c, w);
    var last := w[|w| - 1];
    FindIsExact(c.tombstones, last);
    if ReplacementFor(c, last).Redirect? {
      var next := w + [ReplacementFor(c, last).to];
      RedirectIsEdge(c, last);
      RedirectWalksAreShort(c, next);
      full := RedirectsEnd(c, next);
    } else {
      full := w;
      assert last in c.stations ==> last !in Ids(c.tombstones);
    }
  }

  /** In an accepted document the reason of a tombstone decides what replaces it, and nothing replaces what is not retired. */
  lemma {:induction false} ReplacementIsExact(c: Catalog, id: Id)
    requires PlainIdentities(c) && forall i :: 0 <= i < |c.tombstones| ==> PlainTombstone(c, c.tombstones[i])
    ensures ReplacementFor(c, id) == Unknown <==> !Retired(c, id)
    ensures forall i :: 0 <= i < |c.tombstones| && c.tombstones[i].id == id ==>
              && (ReplacementFor(c, id) == Removed <==> c.tombstones[i].reason == "removed")
              && (c.tombstones[i].reason == "merged" ==>
                    |c.tombstones[i].replacements| == 1 && ReplacementFor(c, id) == Redirect(c.tombstones[i].replacements[0]))
              && (c.tombstones[i].reason == "split" ==> ReplacementFor(c, id) == Ambiguous(c.tombstones[i].replacements))
  {
    FindIsExact(c.tombstones, id);
    RetiredIsListed(c, id);
  }
}
