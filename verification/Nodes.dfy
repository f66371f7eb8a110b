/** The default node of requests that name none. */
module Nodes {
  import opened Wrappers
  import opened Strings
  import opened Tables

  predicate OnV31(db: Db, n: Node) {
    n.profile.Some? && n.profile.value in db.profiles && db.profiles[n.profile.value].IsV31()
  }

  /** Legacy nodes come before V3.1 nodes, then by host name. */
  predicate Before(db: Db, a: Node, b: Node) {
    if OnV31(db, a) != OnV31(db, b) then OnV31(db, b) else Less(a.hostname, b.hostname)
  }

  /** The row an ORDER BY ... LIMIT 1 query returns. */
  predicate IsFirst(db: Db, id: Id) {
    && id in db.nodes
    && forall other :: other in db.nodes && other != id ==> !Before(db, db.nodes[other], db.nodes[id])
  }

  predicate UniqueHostnames(db: Db) {
    forall a, b :: a in db.nodes && b in db.nodes && db.nodes[a].hostname == db.nodes[b].hostname ==> a == b
  }

  /** Among nodes with distinct names there is at most one first row. */
  lemma FirstIsUnique(db: Db, a: Id, b: Id)
    requires UniqueHostnames(db) && IsFirst(db, a) && IsFirst(db, b)
    ensures a == b
  {
    LessTotal(db.nodes[a].hostname, db.nodes[b].hostname);
  }

  lemma BeforeTransitive(db: Db, a: Node, b: Node, c: Node)
    requires Before(db, a, b) && Before(db, b, c)
    ensures Before(db, a, c)
  {
    if OnV31(db, a) == OnV31(db, b) == OnV31(db, c) {
      LessTransitive(a.hostname, b.hostname, c.hostname);
    }
  }

  /** A non-empty set of rows has a first one. */
  lemma {:induction false} SomeFirst(db: Db, ids: set<Id>) returns (first: Id)
    requires ids != {} && ids <= db.nodes.Keys
    ensures first in ids
    ensures forall other :: other in ids && other != first ==> !Before(db, db.nodes[other], db.nodes[first])
  {
    var id :| id in ids;
    var rest := ids - {id};
    assert forall other :: other in ids ==> other == id || other in rest;
    if rest == {} {
      first := id;
    } else {
      var f := SomeFirst(db, rest);
      if Before(db, db.nodes[id], db.nodes[f]) {
        first := id;
        forall other | other in ids && other != first
          ensures !Before(db, db.nodes[other], db.nodes[first])
        {
          if other == f {
            LessTotal(db.nodes[id].hostname, db.nodes[f].hostname);
          } else if Before(db, db.nodes[other], db.nodes[id]) {
            BeforeTransitive(db, db.nodes[other], db.nodes[id], db.nodes[f]);
          }
        }
      } else {
        first := f;
      }
    }
  }

  ghost function PickFirst(db: Db): (r: Option<Id>)
    ensures r.Some? ==> IsFirst(db, r.value)
    ensures r.None? <==> db.nodes == map[]
  {
    if exists id :: IsFirst(db, id) then
      var id :| IsFirst(db, id);
      Some(id)
    else
      NoFirst(db);
      None
  }

  lemma NoFirst(db: Db)
    requires forall id :: !IsFirst(db, id)
    ensures db.nodes == map[]
  {
    if db.nodes.Keys != {} {
      var f := SomeFirst(db, db.nodes.Keys);
      assert IsFirst(db, f);
    }
  }
}
