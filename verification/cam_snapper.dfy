/** Device discovery (CamSnapper.swift): listing the platform's video capture
    devices and filtering them by a query string. The platform's enumeration
    and its notion of lowercasing are parameters. */
module CamSnapper {
  import opened Optional
  import opened Text

  /** A capture device as far as selection is concerned. */
  datatype Device = Device(uniqueID: string, localizedName: string)

  /** The platform's device list, or none when it is empty. */
  function CompatibleDevices(platform: seq<Device>): (r: Option<seq<Device>>)
    ensures r.None? <==> |platform| == 0
    ensures r.Some? ==> r.value == platform
  {
    if |platform| == 0 then None else Some(platform)
  }

  /** `xs` is obtained from `ys` by deleting elements, keeping order. */
  predicate IsSubsequence<T(==)>(xs: seq<T>, ys: seq<T>)
    decreases |ys|
  {
    if |xs| == 0 then true
    else if |ys| == 0 then false
    else if xs[0] == ys[0] then IsSubsequence(xs[1..], ys[1..])
    else IsSubsequence(xs, ys[1..])
  }

  /** Swift's `filter`: the elements of `ds` satisfying `p`, in order. */
  function Select(ds: seq<Device>, p: Device -> bool): (r: seq<Device>)
    ensures |r| <= |ds|
    ensures forall d :: d in r ==> d in ds && p(d)
    ensures forall d :: d in ds && p(d) ==> d in r
    ensures IsSubsequence(r, ds)
    decreases |ds|
  {
    if |ds| == 0 then []
    else
      var rest := Select(ds[1..], p);
      assert forall d :: d in ds ==> d == ds[0] || d in ds[1..];
      if p(ds[0]) then [ds[0]] + rest
      else
        assert |rest| > 0 ==> rest[0] != ds[0];
        rest
  }

  /** Filtering commutes with concatenation: the result keeps the order in
      which devices were enumerated. */
  lemma {:induction false} SelectAppend(a: seq<Device>, b: seq<Device>, p: Device -> bool)
    ensures Select(a + b, p) == Select(a, p) + Select(b, p)
    decreases |a|
  {
    if |a| > 0 {
      assert (a + b)[1..] == a[1..] + b;
      SelectAppend(a[1..], b, p);
    } else {
      assert a + b == b;
    }
  }

  /** The query occurs in the device's lowercased identifier or name. The query
      itself is not lowercased. */
  predicate MatchesQuery(d: Device, query: string, lower: string -> string) {
    Contains(lower(d.uniqueID), query) || Contains(lower(d.localizedName), query)
  }

  /** All devices matching `query`, or none when nothing matches. */
  function DevicesMatchingString(platform: seq<Device>, query: string, lower: string -> string): (r: Option<seq<Device>>)
    ensures r.Some? ==> |r.value| > 0
    ensures r.None? <==> forall d :: d in platform ==> !MatchesQuery(d, query, lower)
    ensures r.Some? ==> forall d :: d in r.value <==> d in platform && MatchesQuery(d, query, lower)
    ensures r.Some? ==> IsSubsequence(r.value, platform)
  {
    match CompatibleDevices(platform)
    case None => None
    case Some(candidates) =>
      var matches := Select(candidates, d => MatchesQuery(d, query, lower));
      if |matches| > 0 then
        assert matches[0] in matches;
        Some(matches)
      else None
  }

  /** The matches are exactly the filter of the enumeration, so a device that
      is enumerated before another is also listed before it. */
  lemma MatchesAreFilter(platform: seq<Device>, query: string, lower: string -> string)
    ensures DevicesMatchingString(platform, query, lower).Some? ==>
      DevicesMatchingString(platform, query, lower).value == Select(platform, d => MatchesQuery(d, query, lower))
    ensures DevicesMatchingString(platform, query, lower).None? ==>
      Select(platform, d => MatchesQuery(d, query, lower)) == []
  {
  }

  /** Only the device side is lowercased: with ASCII lowercasing, a query holding
      a capital letter matches no device at all. */
  lemma UppercaseQueryMatchesNothing(platform: seq<Device>, query: string, j: int)
    requires 0 <= j < |query| && IsAsciiUpper(query[j])
    ensures DevicesMatchingString(platform, query, AsciiLower).None?
  {
    forall d | d in platform
      ensures !MatchesQuery(d, query, AsciiLower)
    {
      UppercaseNeverContained(AsciiLower(d.uniqueID), query, j);
      UppercaseNeverContained(AsciiLower(d.localizedName), query, j);
    }
  }

  /** An empty query matches nothing, as `rangeOfString("")` finds nothing. */
  lemma EmptyQueryMatchesNothing(platform: seq<Device>, lower: string -> string)
    ensures DevicesMatchingString(platform, "", lower).None?
  {
  }
}
