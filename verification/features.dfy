/**
  Records exchanged by the map page: the geosearch records that arrive in a
  query response, and the GeoJSON point features the page accumulates and
  hands to the map's data source.
 */
module Features {

  /** A page id as assigned by the wiki (`pageid` in the response). */
  type Id = int

  /** One record of `query.geosearch` in the response. Latitude and longitude
      are floating-point numbers in the response; the model only copies them,
      so they are kept as reals. */
  datatype Article = Article(pageid: Id, lat: real, lon: real, title: string)

  /** GeoJSON point geometry; `coordinates` is the JSON array `[lon, lat]`. */
  datatype Geometry = Point(coordinates: seq<real>)

  /** The properties object carried by every feature. */
  datatype Properties = Properties(pageid: Id, title: string)

  /** A GeoJSON `Feature` whose geometry is a `Point`. */
  datatype Feature = Feature(geometry: Geometry, properties: Properties)

  /** Converts a response record into a feature. GeoJSON positions put the
      longitude first, so the response's `lat`/`lon` are swapped. */
  function ToFeature(a: Article): (f: Feature)
    ensures |f.geometry.coordinates| == 2
    ensures f.geometry.coordinates[0] == a.lon && f.geometry.coordinates[1] == a.lat
    ensures f.properties.pageid == a.pageid && f.properties.title == a.title
  {
    Feature(Point([a.lon, a.lat]), Properties(a.pageid, a.title))
  }

  /** Reads a response record back out of a two-coordinate feature. */
  function ToArticle(f: Feature): (a: Article)
    requires |f.geometry.coordinates| == 2
    ensures a.pageid == f.properties.pageid && a.title == f.properties.title
    ensures a.lon == f.geometry.coordinates[0] && a.lat == f.geometry.coordinates[1]
  {
    Article(f.properties.pageid, f.geometry.coordinates[1], f.geometry.coordinates[0], f.properties.title)
  }

  /** The conversion loses nothing: the record can be read back out of its feature. */
  lemma ToArticleToFeature(a: Article)
    ensures ToArticle(ToFeature(a)) == a
  {
  }

  /** The `.map(...)` step over a whole sequence of records. */
  function ToFeatures(articles: seq<Article>): (fs: seq<Feature>)
    ensures |fs| == |articles|
    ensures forall i :: 0 <= i < |articles| ==> fs[i] == ToFeature(articles[i])
  {
    if articles == [] then [] else [ToFeature(articles[0])] + ToFeatures(articles[1..])
  }

  /** Mapping distributes over concatenation. */
  lemma ToFeaturesAppend(a: seq<Article>, b: seq<Article>)
    ensures ToFeatures(a + b) == ToFeatures(a) + ToFeatures(b)
  {
  }

  /** The page ids of a sequence of records, in order. */
  function ArticleIds(articles: seq<Article>): (ids: seq<Id>)
    ensures |ids| == |articles|
    ensures forall i :: 0 <= i < |articles| ==> ids[i] == articles[i].pageid
  {
    if articles == [] then [] else [articles[0].pageid] + ArticleIds(articles[1..])
  }

  /** The page ids of a sequence of features, in order. */
  function FeatureIds(fs: seq<Feature>): (ids: seq<Id>)
    ensures |ids| == |fs|
    ensures forall i :: 0 <= i < |fs| ==> ids[i] == fs[i].properties.pageid
  {
    if fs == [] then [] else [fs[0].properties.pageid] + FeatureIds(fs[1..])
  }

  /** Converting records to features keeps their ids and their order. */
  lemma FeatureIdsOfToFeatures(articles: seq<Article>)
    ensures FeatureIds(ToFeatures(articles)) == ArticleIds(articles)
  {
  }

  /** `FeatureIds` of a concatenation is the concatenation of the parts' ids. */
  lemma FeatureIdsAppend(a: seq<Feature>, b: seq<Feature>)
    ensures FeatureIds(a + b) == FeatureIds(a) + FeatureIds(b)
  {
  }

  /** The set of page ids carried by a sequence of features. */
  function Ids(fs: seq<Feature>): (ids: set<Id>)
  {
    set f | f in fs :: f.properties.pageid
  }

  /** `Ids` of a concatenation is the union of the parts' ids. */
  lemma IdsAppend(a: seq<Feature>, b: seq<Feature>)
    ensures Ids(a + b) == Ids(a) + Ids(b)
  {
    forall id | id in Ids(a + b)
      ensures id in Ids(a) + Ids(b)
    {
      var f :| f in a + b && f.properties.pageid == id;
      assert f in a || f in b;
    }
    forall id | id in Ids(a) + Ids(b)
      ensures id in Ids(a + b)
    {
      if id in Ids(a) {
        var f :| f in a && f.properties.pageid == id;
        assert f in a + b;
      } else {
        var f :| f in b && f.properties.pageid == id;
        assert f in a + b;
      }
    }
  }

  /** No value occurs twice. */
  ghost predicate Distinct(ids: seq<Id>)
  {
    forall i, j :: 0 <= i < j < |ids| ==> ids[i] != ids[j]
  }
}
