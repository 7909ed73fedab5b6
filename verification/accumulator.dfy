/**
  The session state of the map page and the step that reconciles one query
  response against it: drop the records whose page id is already known,
  convert the rest to features, and, when anything is left, record their ids
  and append them to the accumulated feature collection, which is then
  published to the map as a whole.
 */
module Accumulator {
  import opened Features

  /** `xs` can be obtained from `ys` by deleting elements: same relative order. */
  ghost predicate IsSubsequence<T>(xs: seq<T>, ys: seq<T>)
    decreases |ys|
  {
    if xs == [] then true
    else if ys == [] then false
    else (xs[0] == ys[0] && IsSubsequence(xs[1..], ys[1..])) || IsSubsequence(xs, ys[1..])
  }

  /** The `.filter(article => !known.has(article.pageid))` step. Only the set
      `known` as it was before the response is consulted. */
  function FilterUnknown(known: set<Id>, batch: seq<Article>): (r: seq<Article>)
    ensures forall a :: a in r <==> a in batch && a.pageid !in known
    ensures |r| <= |batch|
  {
    if batch == [] then []
    else if batch[0].pageid in known then FilterUnknown(known, batch[1..])
    else [batch[0]] + FilterUnknown(known, batch[1..])
  }

  /** Filtering a concatenation filters each part: the survivors of an earlier
      part come before those of a later one. */
  lemma {:induction false} FilterAppend(known: set<Id>, a: seq<Article>, b: seq<Article>)
    ensures FilterUnknown(known, a + b) == FilterUnknown(known, a) + FilterUnknown(known, b)
    decreases |a|
  {
    if a != [] {
      assert (a + b)[0] == a[0];
      assert (a + b)[1..] == a[1..] + b;
      FilterAppend(known, a[1..], b);
    } else {
      assert a + b == b;
    }
  }

  /** The survivors keep the relative order they had in the response. */
  lemma {:induction false} FilterIsSubsequence(known: set<Id>, batch: seq<Article>)
    ensures IsSubsequence(FilterUnknown(known, batch), batch)
    decreases |batch|
  {
    if batch != [] {
      FilterIsSubsequence(known, batch[1..]);
      var rest := FilterUnknown(known, batch[1..]);
      if batch[0].pageid !in known {
        assert ([batch[0]] + rest)[1..] == rest;
      } else {
        assert IsSubsequence(rest, batch[1..]);
      }
    }
  }

  /** Converting both sides keeps a subsequence a subsequence. */
  lemma {:induction false} ToFeaturesKeepsSubsequence(xs: seq<Article>, ys: seq<Article>)
    requires IsSubsequence(xs, ys)
    ensures IsSubsequence(ToFeatures(xs), ToFeatures(ys))
    decreases |ys|
  {
    if xs != [] {
      var fx := ToFeatures(xs);
      var fy := ToFeatures(ys);
      assert fx[1..] == ToFeatures(xs[1..]);
      assert fy[1..] == ToFeatures(ys[1..]);
      if xs[0] == ys[0] && IsSubsequence(xs[1..], ys[1..]) {
        ToFeaturesKeepsSubsequence(xs[1..], ys[1..]);
      } else {
        ToFeaturesKeepsSubsequence(xs, ys[1..]);
      }
    }
  }

  /** A response whose page ids are pairwise distinct keeps that after filtering. */
  lemma {:induction false} FilterKeepsDistinct(known: set<Id>, batch: seq<Article>)
    requires Distinct(ArticleIds(batch))
    ensures Distinct(ArticleIds(FilterUnknown(known, batch)))
    decreases |batch|
  {
    if batch != [] {
      var tailIds := ArticleIds(batch[1..]);
      assert forall i :: 0 <= i < |tailIds| ==> tailIds[i] == ArticleIds(batch)[i + 1];
      FilterKeepsDistinct(known, batch[1..]);
      var rest := FilterUnknown(known, batch[1..]);
      if batch[0].pageid !in known {
        var ids := ArticleIds([batch[0]] + rest);
        forall i, j | 0 <= i < j < |ids|
          ensures ids[i] != ids[j]
        {
          if i == 0 {
            var a := rest[j - 1];
            assert a in batch[1..];
            var k :| 0 <= k < |batch[1..]| && batch[1..][k] == a;
            assert ArticleIds(batch)[k + 1] == a.pageid;
          } else {
            assert ids[i] == ArticleIds(rest)[i - 1];
            assert ids[j] == ArticleIds(rest)[j - 1];
          }
        }
      }
    }
  }

  /** Session state: the ids seen so far (`known`, a Set) and the accumulated
      features in discovery order (`features`, an array). */
  datatype Session = Session(known: set<Id>, features: seq<Feature>)

  /** Both start empty when the page loads. */
  function Init(): (s: Session)
    ensures Valid(s)
    ensures s.known == {} && s.features == []
  {
    Session({}, [])
  }

  /** The ids in `known` are exactly the ids of the accumulated features. */
  ghost predicate Valid(s: Session)
  {
    Ids(s.features) == s.known
  }

  /** What one reconcile produces: the next session, the features that were
      new in this response, and whether the full collection is published to
      the map's data source. */
  datatype Outcome = Outcome(session: Session, unknown: seq<Feature>, publish: bool)

  /** Every record of `xs` has its feature in `ToFeatures(xs)`, and every
      feature there reads back as a record of `xs`. */
  lemma ToFeaturesMembership(xs: seq<Article>)
    ensures forall a :: a in xs ==> ToFeature(a) in ToFeatures(xs)
    ensures forall f :: f in ToFeatures(xs) ==> |f.geometry.coordinates| == 2 && ToArticle(f) in xs
  {
    var fs := ToFeatures(xs);
    forall a | a in xs
      ensures ToFeature(a) in fs
    {
      var i :| 0 <= i < |xs| && xs[i] == a;
      assert fs[i] == ToFeature(a);
    }
    forall f | f in fs
      ensures |f.geometry.coordinates| == 2 && ToArticle(f) in xs
    {
      var i :| 0 <= i < |fs| && fs[i] == f;
      ToArticleToFeature(xs[i]);
    }
  }

  /** Reconciles one query response against the session. */
  function Reconcile(s: Session, batch: seq<Article>): (o: Outcome)
    // the filter: nothing already known survives, everything else does,
    // and every new feature is one of the response's records
    ensures forall f :: f in o.unknown ==> f.properties.pageid !in s.known
    ensures forall a :: a in batch && a.pageid !in s.known ==> ToFeature(a) in o.unknown
    ensures forall f :: f in o.unknown ==> |f.geometry.coordinates| == 2 && ToArticle(f) in batch
    ensures |o.unknown| <= |batch|
    // the early return
    ensures o.publish <==> o.unknown != []
    ensures !o.publish ==> o.session == s
    // the merge
    ensures o.publish ==> o.session.known == s.known + Ids(o.unknown)
    ensures o.publish ==> o.session.features == s.features + o.unknown
    // monotone growth; the old collection is a prefix of the new one
    ensures s.known <= o.session.known && s.features <= o.session.features
  {
    var survivors := FilterUnknown(s.known, batch);
    var unknown := ToFeatures(survivors);
    ToFeaturesMembership(survivors);
    if unknown == [] then
      Outcome(s, [], false)
    else
      Outcome(Session(s.known + Ids(unknown), s.features + unknown), unknown, true)
  }

  /** The new features are the response's surviving records, converted, in
      the order the response listed them. */
  lemma UnknownInResponseOrder(s: Session, batch: seq<Article>)
    ensures IsSubsequence(Reconcile(s, batch).unknown, ToFeatures(batch))
  {
    FilterIsSubsequence(s.known, batch);
    ToFeaturesKeepsSubsequence(FilterUnknown(s.known, batch), batch);
  }

  /** A response made of two parts gives the new features of the first part
      followed by those of the second, both judged against the same `known`. */
  lemma UnknownOfAppend(s: Session, a: seq<Article>, b: seq<Article>)
    ensures Reconcile(s, a + b).unknown == Reconcile(s, a).unknown + Reconcile(s, b).unknown
  {
    FilterAppend(s.known, a, b);
    ToFeaturesAppend(FilterUnknown(s.known, a), FilterUnknown(s.known, b));
  }

  /** The initial session satisfies the invariant and every reconcile keeps it. */
  lemma ReconcilePreservesValid(s: Session, batch: seq<Article>)
    requires Valid(s)
    ensures Valid(Reconcile(s, batch).session)
  {
    var o := Reconcile(s, batch);
    if o.publish {
      IdsAppend(s.features, o.unknown);
    }
  }

  /** Reconciling the same response twice finds nothing new the second time
      and leaves the session as the first call left it, even when the
      response repeats a page id. */
  lemma ReconcileIdempotent(s: Session, batch: seq<Article>)
    ensures var o1 := Reconcile(s, batch);
            var o2 := Reconcile(o1.session, batch);
            o2.unknown == [] && !o2.publish && o2.session == o1.session
  {
    var o1 := Reconcile(s, batch);
    forall a | a in batch
      ensures a.pageid in o1.session.known
    {
      if a.pageid !in s.known {
        assert ToFeature(a) in o1.unknown;
      }
    }
  }

  /** Two duplicate-free sequences with no value in common concatenate to a
      duplicate-free sequence. */
  lemma DistinctConcat(x: seq<Id>, y: seq<Id>)
    requires Distinct(x) && Distinct(y)
    requires forall i, j :: 0 <= i < |x| && 0 <= j < |y| ==> x[i] != y[j]
    ensures Distinct(x + y)
  {
    var xy := x + y;
    forall i, j | 0 <= i < j < |xy|
      ensures xy[i] != xy[j]
    {
      if j < |x| {
        assert xy[i] == x[i] && xy[j] == x[j];
      } else if i >= |x| {
        assert xy[i] == y[i - |x|] && xy[j] == y[j - |x|];
      } else {
        assert xy[i] == x[i] && xy[j] == y[j - |x|];
      }
    }
  }

  /** Appending duplicate-free features whose ids are all outside `Ids(fs)`
      keeps a duplicate-free collection duplicate-free. */
  lemma AppendNewKeepsDistinct(fs: seq<Feature>, added: seq<Feature>)
    requires Distinct(FeatureIds(fs)) && Distinct(FeatureIds(added))
    requires forall f :: f in added ==> f.properties.pageid !in Ids(fs)
    ensures Distinct(FeatureIds(fs + added))
  {
    var oldIds := FeatureIds(fs);
    var newIds := FeatureIds(added);
    forall i, j | 0 <= i < |oldIds| && 0 <= j < |newIds|
      ensures oldIds[i] != newIds[j]
    {
      assert fs[i] in fs;
      assert oldIds[i] in Ids(fs);
      assert added[j] in added;
      assert newIds[j] == added[j].properties.pageid;
    }
    DistinctConcat(oldIds, newIds);
    FeatureIdsAppend(fs, added);
  }

  /** Page ids in the collection stay pairwise distinct, provided each
      response lists every page id at most once. */
  lemma ReconcileKeepsIdsDistinct(s: Session, batch: seq<Article>)
    requires Valid(s)
    requires Distinct(FeatureIds(s.features))
    requires Distinct(ArticleIds(batch))
    ensures Distinct(FeatureIds(Reconcile(s, batch).session.features))
  {
    var o := Reconcile(s, batch);
    if o.publish {
      var survivors := FilterUnknown(s.known, batch);
      assert o.unknown == ToFeatures(survivors);
      FilterKeepsDistinct(s.known, batch);
      FeatureIdsOfToFeatures(survivors);
      AppendNewKeepsDistinct(s.features, o.unknown);
    }
  }

  /** Without distinct ids in the response the collection can hold the same
      page twice: the filter looks only at `known` as it was before the
      response, so both copies survive and both are appended. */
  lemma DuplicateInResponseIsAppendedTwice()
    ensures var a := Article(1, 53.2191, 6.5683, "Martinitoren");
            var b := Article(1, 53.219, 6.568, "Martinikerk");
            var o := Reconcile(Init(), [a, b]);
            o.session.features == [ToFeature(a), ToFeature(b)] &&
            !Distinct(FeatureIds(o.session.features))
  {
    var a := Article(1, 53.2191, 6.5683, "Martinitoren");
    var b := Article(1, 53.219, 6.568, "Martinikerk");
    assert FilterUnknown({}, [a, b]) == [a, b] by {
      assert [a, b][1..] == [b];
      assert FilterUnknown({}, [b]) == [b];
    }
    var o := Reconcile(Init(), [a, b]);
    assert FeatureIds(o.session.features)[0] == FeatureIds(o.session.features)[1];
  }

  /** The chained `.filter(...).map(...)` over the response, as a loop. */
  method FilterAndConvert(known: set<Id>, batch: seq<Article>) returns (unknown: seq<Feature>)
    ensures unknown == ToFeatures(FilterUnknown(known, batch))
  {
    unknown := [];
    var i := 0;
    while i < |batch|
      invariant 0 <= i <= |batch|
      invariant unknown == ToFeatures(FilterUnknown(known, batch[..i]))
    {
      assert batch[..i + 1] == batch[..i] + [batch[i]];
      FilterAppend(known, batch[..i], [batch[i]]);
      ToFeaturesAppend(FilterUnknown(known, batch[..i]), FilterUnknown(known, [batch[i]]));
      if batch[i].pageid !in known {
        unknown := unknown + [ToFeature(batch[i])];
      }
      i := i + 1;
    }
    assert batch[..i] == batch;
  }

  /** The `unknown.forEach(article => known.add(...))` step, as a loop. */
  method AddIds(known: set<Id>, unknown: seq<Feature>) returns (next: set<Id>)
    ensures next == known + Ids(unknown)
  {
    next := known;
    var j := 0;
    while j < |unknown|
      invariant 0 <= j <= |unknown|
      invariant next == known + Ids(unknown[..j])
    {
      assert unknown[..j + 1] == unknown[..j] + [unknown[j]];
      IdsAppend(unknown[..j], [unknown[j]]);
      next := next + {unknown[j].properties.pageid};
      j := j + 1;
    }
    assert unknown[..j] == unknown;
  }

  /** The body of `fetchData` from the filter to the push, step by step: the
      filter and conversion, the early return, the id loop and the append. */
  method FetchData(s: Session, batch: seq<Article>) returns (next: Session, unknown: seq<Feature>, publish: bool)
    ensures Reconcile(s, batch) == Outcome(next, unknown, publish)
  {
    unknown := FilterAndConvert(s.known, batch);
    if |unknown| == 0 {
      return s, [], false;
    }
    var known := AddIds(s.known, unknown);
    next := Session(known, s.features + unknown);
    publish := true;
  }
}
