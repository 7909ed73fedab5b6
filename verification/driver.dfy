/**
  The `fetchData` cycle as the map's `load` and `moveend` events drive it:
  each cycle either obtains a geosearch response and reconciles it, or fails
  before any state is touched.
 */
module Driver {
  import opened Features
  import opened Accumulator

  /** The ways a cycle can fail before reaching the filter: the request is
      rejected, the body is not JSON, or `data.query.geosearch` is missing. */
  datatype FetchError = NetworkError | MalformedJson | MissingGeosearch

  /** What the request produced: the `query.geosearch` records, or an error. */
  datatype Response = Fetched(geosearch: seq<Article>) | Failed(error: FetchError)

  /** One call of `fetchData`. A failure rejects the call's promise before
      the mutation block, so the session is left as it was. */
  function Cycle(s: Session, r: Response): (o: Outcome)
    ensures r.Failed? ==> o.session == s && o.unknown == [] && !o.publish
    ensures r.Fetched? ==> o == Reconcile(s, r.geosearch)
    ensures s.known <= o.session.known && s.features <= o.session.features
  {
    match r
    case Failed(_) => Outcome(s, [], false)
    case Fetched(batch) => Reconcile(s, batch)
  }

  /** The session after a sequence of cycles, in the order they completed.
      Whatever responses arrive, in whatever order, `known` only grows and the
      earlier collection stays a prefix of the later one, so every feature
      keeps its discovery position; cycles that all fail change nothing. */
  function Run(s: Session, rs: seq<Response>): (r: Session)
    ensures s.known <= r.known
    ensures s.features <= r.features
    ensures (forall i :: 0 <= i < |rs| ==> rs[i].Failed?) ==> r == s
    decreases |rs|
  {
    if rs == [] then s else Run(Cycle(s, rs[0]).session, rs[1..])
  }

  /** Running two sequences of cycles is running the first and then the second. */
  lemma {:induction false} RunAppend(s: Session, a: seq<Response>, b: seq<Response>)
    ensures Run(s, a + b) == Run(Run(s, a), b)
    decreases |a|
  {
    if a == [] {
      assert a + b == b;
    } else {
      assert (a + b)[0] == a[0];
      assert (a + b)[1..] == a[1..] + b;
      RunAppend(Cycle(s, a[0]).session, a[1..], b);
    }
  }

  /** Starting from the empty session, ids in `known` always match the ids
      of the accumulated features. */
  lemma {:induction false} RunPreservesValid(s: Session, rs: seq<Response>)
    requires Valid(s)
    ensures Valid(Run(s, rs))
    decreases |rs|
  {
    if rs != [] {
      if rs[0].Fetched? {
        ReconcilePreservesValid(s, rs[0].geosearch);
      }
      RunPreservesValid(Cycle(s, rs[0]).session, rs[1..]);
    }
  }

  /** Every successful response whose page ids are pairwise distinct. */
  ghost predicate ResponsesDistinct(rs: seq<Response>)
  {
    forall i :: 0 <= i < |rs| && rs[i].Fetched? ==> Distinct(ArticleIds(rs[i].geosearch))
  }

  /** If no response repeats a page id, no page appears twice in the collection. */
  lemma {:induction false} RunKeepsIdsDistinct(s: Session, rs: seq<Response>)
    requires Valid(s) && Distinct(FeatureIds(s.features))
    requires ResponsesDistinct(rs)
    ensures Distinct(FeatureIds(Run(s, rs).features))
    decreases |rs|
  {
    if rs != [] {
      var next := Cycle(s, rs[0]).session;
      if rs[0].Fetched? {
        ReconcileKeepsIdsDistinct(s, rs[0].geosearch);
        ReconcilePreservesValid(s, rs[0].geosearch);
      }
      assert ResponsesDistinct(rs[1..]) by {
        forall i | 0 <= i < |rs[1..]| && rs[1..][i].Fetched?
          ensures Distinct(ArticleIds(rs[1..][i].geosearch))
        {
          assert rs[1..][i] == rs[i + 1];
        }
      }
      RunKeepsIdsDistinct(next, rs[1..]);
    }
  }

  /** Three responses after the page loads: two disjoint ones, then one that
      overlaps the first two completely, then one that overlaps partly. */
  lemma DiscoveryScenario()
    ensures var p1 := Article(1, 1.0, 1.0, "A");
            var p2 := Article(2, 2.0, 2.0, "B");
            var p3 := Article(3, 3.0, 3.0, "C");
            var o1 := Reconcile(Init(), [p1]);
            var o2 := Reconcile(o1.session, [p2]);
            var o3 := Reconcile(o2.session, [p1, p2]);
            var o4 := Reconcile(o3.session, [p1, p3]);
            && o1.unknown == [ToFeature(p1)] && o1.session.features == [ToFeature(p1)]
            && o2.unknown == [ToFeature(p2)] && o2.session.features == [ToFeature(p1), ToFeature(p2)]
            && o3.unknown == [] && !o3.publish && o3.session == o2.session
            && o4.unknown == [ToFeature(p3)]
            && o4.session.features == [ToFeature(p1), ToFeature(p2), ToFeature(p3)]
            && o4.session.known == {1, 2, 3}
  {
    var p1 := Article(1, 1.0, 1.0, "A");
    var p2 := Article(2, 2.0, 2.0, "B");
    var p3 := Article(3, 3.0, 3.0, "C");
    var o1 := Reconcile(Init(), [p1]);
    assert o1.unknown == [ToFeature(p1)];
    assert Ids([ToFeature(p1)]) == {1};
    var o2 := Reconcile(o1.session, [p2]);
    assert o2.unknown == [ToFeature(p2)];
    assert Ids([ToFeature(p2)]) == {2};
    var o3 := Reconcile(o2.session, [p1, p2]);
    assert FilterUnknown({1, 2}, [p1, p2]) == [] by {
      assert [p1, p2][1..] == [p2];
    }
    var o4 := Reconcile(o3.session, [p1, p3]);
    assert FilterUnknown({1, 2}, [p1, p3]) == [p3] by {
      assert [p1, p3][1..] == [p3];
    }
    assert Ids([ToFeature(p3)]) == {3};
  }
}
