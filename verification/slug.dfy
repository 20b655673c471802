/**
 * Route-segment decoding of utils/slug.ts (repeated as `extractSlug` in
 * utils/translate.ts): one to three path segments name the query, the target
 * and query, or the source, target and query.
 */
module Slug {
  import opened Wrappers

  /** The route parameters; an absent field is left out of the source's record. */
  datatype SlugParams = SlugParams(source: Option<string>, target: Option<string>, query: Option<string>)

  /**
   * The query is always the last segment, the target the one before it and the
   * source the first of three; zero or more than three segments give no field.
   */
  function ExtractSlug(slug: seq<string>): (r: SlugParams)
    ensures r.query.Some? <==> 1 <= |slug| <= 3
    ensures r.target.Some? <==> 2 <= |slug| <= 3
    ensures r.source.Some? <==> |slug| == 3
    ensures r.query.Some? ==> r.query.value == slug[|slug| - 1]
    ensures r.target.Some? ==> r.target.value == slug[|slug| - 2]
    ensures r.source.Some? ==> r.source.value == slug[0]
  {
    if |slug| == 1 then SlugParams(None, None, Some(slug[0]))
    else if |slug| == 2 then SlugParams(None, Some(slug[0]), Some(slug[1]))
    else if |slug| == 3 then SlugParams(Some(slug[0]), Some(slug[1]), Some(slug[2]))
    else SlugParams(None, None, None)
  }

  /** The segments of a route: the present fields in source, target, query order. */
  function Segments(p: SlugParams): seq<string>
  {
    (if p.source.Some? then [p.source.value] else [])
    + (if p.target.Some? then [p.target.value] else [])
    + (if p.query.Some? then [p.query.value] else [])
  }

  /** The parameter records `ExtractSlug` can produce from a route it accepts. */
  predicate WellShaped(p: SlugParams)
  {
    p.query.Some? && (p.source.Some? ==> p.target.Some?)
  }

  /** Decoding an accepted route and writing its segments back gives the route. */
  lemma ExtractSlugRoundTrip(slug: seq<string>)
    requires 1 <= |slug| <= 3
    ensures WellShaped(ExtractSlug(slug))
    ensures Segments(ExtractSlug(slug)) == slug
  {
  }

  /** Writing well-shaped parameters as segments and decoding them gives them back. */
  lemma SegmentsRoundTrip(p: SlugParams)
    requires WellShaped(p)
    ensures 1 <= |Segments(p)| <= 3
    ensures ExtractSlug(Segments(p)) == p
  {
  }

  /** A full `/source/target/query` route decodes to its three parts. */
  lemma FullRouteRoundTrip(source: string, target: string, query: string)
    ensures ExtractSlug([source, target, query]) == SlugParams(Some(source), Some(target), Some(query))
  {
  }
}
