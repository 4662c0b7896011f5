/**
 * The query class. Each query comes twice: a method that walks the list with
 * a loop (the Java 7 style), and a function that is the stream pipeline. The
 * functions state what each query means; each method is proved to compute its
 * function (for the top three, up to the order of equally frequent values).
 */
module Processor {
  import opened Wrappers
  import opened Accidents
  import opened Sequences
  import opened Collectors
  import opened Ranking

  class DataProcessor {
    const roadAccidentList: seq<RoadAccident>

    constructor (roadAccidentList: seq<RoadAccident>)
      ensures this.roadAccidentList == roadAccidentList
    {
      this.roadAccidentList := roadAccidentList;
    }

    // ---------------------------------------------------------------------
    // Stream versions

    /** The first record whose id is `index`, or None when no record has it. */
    function GetAccidentByIndex(index: string): (r: Option<RoadAccident>)
      ensures r.None? <==> forall i :: 0 <= i < |roadAccidentList| ==> roadAccidentList[i].accidentId != index
      ensures r.Some? ==>
                exists i :: 0 <= i < |roadAccidentList| && roadAccidentList[i] == r.value &&
                  r.value.accidentId == index &&
                  forall j :: 0 <= j < i ==> roadAccidentList[j].accidentId != index
    {
      var hasId := (a: RoadAccident) => a.accidentId == index;
      FilterFirst(roadAccidentList, hasId);
      var roadAccidents := Filter(roadAccidentList, hasId);
      if roadAccidents == [] then None else Some(roadAccidents[0])
    }

    /**
     * The records inside the closed box, in list order: a record is kept as
     * often as it occurs when it is inside, never when it is outside.
     */
    function GetAccidentsByLocation(minLongitude: real, maxLongitude: real, minLatitude: real, maxLatitude: real)
      : (r: seq<RoadAccident>)
      ensures forall a :: a in r <==> (a in roadAccidentList &&
                minLongitude <= a.longitude <= maxLongitude && minLatitude <= a.latitude <= maxLatitude)
      ensures forall a :: multiset(r)[a] ==
                if InBox(minLongitude, maxLongitude, minLatitude, maxLatitude)(a)
                then multiset(roadAccidentList)[a] else 0
      ensures IsSubsequence(r, roadAccidentList)
      ensures minLongitude > maxLongitude || minLatitude > maxLatitude ==> r == []
    {
      FilterCounts(roadAccidentList, InBox(minLongitude, maxLongitude, minLatitude, maxLatitude));
      FilterIsSubsequence(roadAccidentList, InBox(minLongitude, maxLongitude, minLatitude, maxLatitude));
      Filter(roadAccidentList, InBox(minLongitude, maxLongitude, minLatitude, maxLatitude))
    }

    /**
     * For every surface condition present, the number of records with it;
     * no other keys; the counts add up to the number of records.
     */
    function GetCountByRoadSurfaceCondition(): (m: map<string, nat>)
      ensures forall k :: k in m <==> exists i :: 0 <= i < |roadAccidentList| && roadAccidentList[i].roadSurfaceConditions == k
      ensures forall k :: k in m ==> m[k] == multiset(Project(roadAccidentList, SurfaceOf))[k] > 0
      ensures Total(m) == |roadAccidentList|
    {
      CountByCounts(roadAccidentList, SurfaceOf);
      CountByTotal(roadAccidentList, SurfaceOf);
      CountBy(roadAccidentList, SurfaceOf)
    }

    /** The weather counts the top three is chosen from. */
    function WeatherCounts(): (m: map<string, nat>)
      ensures forall k :: k in m <==> exists i :: 0 <= i < |roadAccidentList| && roadAccidentList[i].weatherConditions == k
      ensures forall k :: k in m ==> m[k] == multiset(Project(roadAccidentList, WeatherOf))[k] > 0
    {
      CountByCounts(roadAccidentList, WeatherOf);
      CountBy(roadAccidentList, WeatherOf)
    }

    /**
     * The three most frequent weather conditions, most frequent first. The
     * entries are taken in the order the conditions first occur, so equally
     * frequent conditions come out in that order.
     */
    function GetTopThreeWeatherCondition(): (r: seq<string>)
      ensures IsTopK(r, WeatherCounts(), 3)
    {
      var entries := Distinct(Project(roadAccidentList, WeatherOf));
      CountByCounts(roadAccidentList, WeatherOf);
      assert Elements(entries) == WeatherCounts().Keys;
      TopKIsTopK(WeatherCounts(), entries, 3);
      TopK(WeatherCounts(), entries, 3)
    }

    /**
     * For every authority present, the ids of exactly its records in list
     * order; together the groups hold every record's id once.
     */
    function GetAccidentIdsGroupedByAuthority(): (g: map<string, seq<string>>)
      ensures forall k :: k in g <==> exists i :: 0 <= i < |roadAccidentList| && roadAccidentList[i].districtAuthority == k
      ensures forall k :: k in g ==> g[k] == Project(Filter(roadAccidentList, KeyIs(AuthorityOf, k)), IdOf) != []
      ensures Flatten(g) == multiset(Project(roadAccidentList, IdOf))
    {
      GroupByGroups(roadAccidentList, AuthorityOf, IdOf);
      GroupByFlatten(roadAccidentList, AuthorityOf, IdOf);
      GroupBy(roadAccidentList, AuthorityOf, IdOf)
    }

    // ---------------------------------------------------------------------
    // Loop versions

    method GetAccidentByIndex7(index: string) returns (r: Option<RoadAccident>)
      ensures r == GetAccidentByIndex(index)
    {
      for i := 0 to |roadAccidentList|
        invariant forall j :: 0 <= j < i ==> roadAccidentList[j].accidentId != index
      {
        if roadAccidentList[i].accidentId == index {
          return Some(roadAccidentList[i]);
        }
      }
      return None;
    }

    method GetAccidentsByLocation7(minLongitude: real, maxLongitude: real, minLatitude: real, maxLatitude: real)
      returns (roadAccidents: seq<RoadAccident>)
      ensures roadAccidents == GetAccidentsByLocation(minLongitude, maxLongitude, minLatitude, maxLatitude)
    {
      ghost var inBox := InBox(minLongitude, maxLongitude, minLatitude, maxLatitude);
      roadAccidents := [];
      for i := 0 to |roadAccidentList|
        invariant roadAccidents == Filter(roadAccidentList[..i], inBox)
      {
        var roadAccident := roadAccidentList[i];
        FilterAppend(roadAccidentList[..i], roadAccident, inBox);
        assert roadAccidentList[..i + 1] == roadAccidentList[..i] + [roadAccident];
        if roadAccident.longitude >= minLongitude && roadAccident.longitude <= maxLongitude &&
           roadAccident.latitude >= minLatitude && roadAccident.latitude <= maxLatitude {
          roadAccidents := roadAccidents + [roadAccident];
        }
      }
      assert roadAccidentList[..|roadAccidentList|] == roadAccidentList;
    }

    method GetCountByRoadSurfaceCondition7() returns (roadAccidentMaps: map<string, nat>)
      ensures roadAccidentMaps == GetCountByRoadSurfaceCondition()
    {
      roadAccidentMaps := map[];
      for i := 0 to |roadAccidentList|
        invariant roadAccidentMaps == CountBy(roadAccidentList[..i], SurfaceOf)
        invariant Total(roadAccidentMaps) == i
      {
        var surface := roadAccidentList[i].roadSurfaceConditions;
        BumpTotal(roadAccidentMaps, surface);
        assert roadAccidentList[..i + 1][..i] == roadAccidentList[..i];
        if surface !in roadAccidentMaps {
          roadAccidentMaps := roadAccidentMaps[surface := 1];
        } else {
          roadAccidentMaps := roadAccidentMaps[surface := roadAccidentMaps[surface] + 1];
        }
      }
      assert roadAccidentList[..|roadAccidentList|] == roadAccidentList;
    }

    /**
     * Count the weather conditions, list the entries in the map's own order,
     * sort them by descending count and keep the first three. The result is
     * the stream pipeline applied to that entry order, and so a top three
     * that agrees with the stream version in length and in the count at
     * every position.
     */
    method GetTopThreeWeatherCondition7() returns (top3WeatherCondition: seq<string>)
      ensures exists order :: NoDuplicates(order) && Elements(order) == WeatherCounts().Keys &&
                top3WeatherCondition == TopK(WeatherCounts(), order, 3)
      ensures IsTopK(top3WeatherCondition, WeatherCounts(), 3)
      ensures |top3WeatherCondition| == |GetTopThreeWeatherCondition()|
      ensures forall i :: 0 <= i < |top3WeatherCondition| ==>
                WeatherCounts()[top3WeatherCondition[i]] == WeatherCounts()[GetTopThreeWeatherCondition()[i]]
    {
      var roadAccidentMaps: map<string, nat> := map[];
      for i := 0 to |roadAccidentList|
        invariant roadAccidentMaps == CountBy(roadAccidentList[..i], WeatherOf)
      {
        var weather := roadAccidentList[i].weatherConditions;
        assert roadAccidentList[..i + 1][..i] == roadAccidentList[..i];
        if weather !in roadAccidentMaps {
          roadAccidentMaps := roadAccidentMaps[weather := 1];
        } else {
          roadAccidentMaps := roadAccidentMaps[weather := roadAccidentMaps[weather] + 1];
        }
      }
      assert roadAccidentList[..|roadAccidentList|] == roadAccidentList;

      var order := EntryList(roadAccidentMaps);
      var roadAccidents := SortByCount(order, roadAccidentMaps);

      top3WeatherCondition := [];
      var i := 1;
      var j := 0;
      while j < |roadAccidents|
        invariant 0 <= j <= |roadAccidents| && j <= 3 && i == j + 1
        invariant top3WeatherCondition == roadAccidents[..j]
      {
        if i > 3 {
          break;
        }
        top3WeatherCondition := top3WeatherCondition + [roadAccidents[j]];
        i := i + 1;
        j := j + 1;
      }
      assert top3WeatherCondition == TopK(roadAccidentMaps, order, 3);
      TopThreeOfOrder(order);
    }

    /** Whatever the entry order, the first three after sorting are a top three agreeing with the stream version up to ties. */
    lemma TopThreeOfOrder(order: seq<string>)
      requires NoDuplicates(order) && Elements(order) == WeatherCounts().Keys
      ensures IsTopK(TopK(WeatherCounts(), order, 3), WeatherCounts(), 3)
      ensures |TopK(WeatherCounts(), order, 3)| == |GetTopThreeWeatherCondition()|
      ensures forall i :: 0 <= i < |TopK(WeatherCounts(), order, 3)| ==>
                WeatherCounts()[TopK(WeatherCounts(), order, 3)[i]] == WeatherCounts()[GetTopThreeWeatherCondition()[i]]
    {
      TopKIsTopK(WeatherCounts(), order, 3);
      TopKUpToTies(TopK(WeatherCounts(), order, 3), GetTopThreeWeatherCondition(), WeatherCounts(), 3);
    }

    method GetAccidentIdsGroupedByAuthority7() returns (multimap: map<string, seq<string>>)
      ensures multimap == GetAccidentIdsGroupedByAuthority()
    {
      multimap := map[];
      for i := 0 to |roadAccidentList|
        invariant multimap == GroupBy(roadAccidentList[..i], AuthorityOf, IdOf)
      {
        assert roadAccidentList[..i + 1][..i] == roadAccidentList[..i];
        multimap := Put(multimap, roadAccidentList[i].districtAuthority, roadAccidentList[i].accidentId);
      }
      assert roadAccidentList[..|roadAccidentList|] == roadAccidentList;
    }
  }
}
