/**
 * validate_namespace: what the root group of the file holds. Flight data
 * parameters must live in a group named exactly 'series'.
 */
module Namespace {
  import opened Wrappers
  import opened Logging
  import opened Text

  const SERIES: string := "series"

  /** Root keys that contain 'series' once lower-cased (the wrong-case candidates). */
  function SeriesLike(keys: seq<string>): (r: seq<string>)
    ensures forall k :: k in r <==> k in keys && Contains(Lower(k), SERIES)
    ensures |r| <= |keys|
  {
    if keys == [] then []
    else (if Contains(Lower(keys[0]), SERIES) then [keys[0]] else []) + SeriesLike(keys[1..])
  }

  /** Root keys that do not contain 'series' (case-sensitively): the groups listed at DEBUG level. */
  function OtherGroups(keys: seq<string>): (r: seq<string>)
    ensures forall k :: k in r <==> k in keys && !Contains(k, SERIES)
    ensures |r| <= |keys|
  {
    if keys == [] then []
    else (if !Contains(keys[0], SERIES) then [keys[0]] else []) + OtherGroups(keys[1..])
  }

  /** The variable `found` of the source: the name 'series', or the list of wrong-case candidates. */
  datatype Found = FoundName(name: string) | FoundList(names: seq<string>)

  /** Python's `'series' in found`: a substring test on the name, a membership test on the list. */
  predicate SeriesIn(found: Found) {
    match found
    case FoundName(name) => Contains(name, SERIES)
    case FoundList(names) => SERIES in names
  }

  datatype SeriesLookup = SeriesFound | SeriesWrongCase(found: seq<string>) | SeriesMissing

  /** The five outcomes of counting the groups on root. */
  datatype RootGroups =
    | OnlySeries
    | OnlyOtherGroup
    | NoGroups
    | SeriesAndOthers(additional: nat)
    | OthersWithoutSeries(count: nat)
  {
    predicate IsError() { OnlyOtherGroup? || NoGroups? || OthersWithoutSeries? }
  }

  /** `shown` holds the groups listed at DEBUG level, when the source lists them. */
  datatype NamespaceReport = NamespaceReport(lookup: SeriesLookup, groups: RootGroups, shown: Option<seq<string>>)

  /** validate_namespace over the list of root keys, in the order the file gives them. */
  function ValidateNamespace(keys: seq<string>): (r: NamespaceReport)
    ensures r.lookup.SeriesFound? <==> SERIES in keys
    ensures r.lookup.SeriesWrongCase? <==> SERIES !in keys && exists k :: k in keys && Contains(Lower(k), SERIES)
    ensures r.lookup.SeriesWrongCase? ==> forall k :: k in r.lookup.found <==> k in keys && Contains(Lower(k), SERIES)
    ensures r.groups.OnlySeries? <==> |keys| == 1 && SERIES in keys
    ensures r.groups.OnlyOtherGroup? <==> |keys| == 1 && SERIES !in keys
    ensures r.groups.NoGroups? <==> |keys| == 0
    ensures r.groups.SeriesAndOthers? <==> |keys| > 1 && SERIES in keys
    ensures r.groups.SeriesAndOthers? ==> r.groups.additional == |keys| - 1
    ensures r.groups.OthersWithoutSeries? <==> |keys| > 1 && SERIES !in keys
    ensures r.groups.OthersWithoutSeries? ==> r.groups.count == |keys|
    ensures r.shown.Some? <==> !(r.groups.OnlySeries? || r.groups.NoGroups?)
    ensures r.shown.Some? ==> forall k :: k in r.shown.value <==> k in keys && !Contains(k, SERIES)
  {
    var found := if SERIES in keys then FoundName(SERIES) else FoundList(SeriesLike(keys));
    var lookup :=
      if SERIES in keys then SeriesFound
      else if SeriesLike(keys) != [] then SeriesWrongCase(SeriesLike(keys))
      else SeriesMissing;
    var n := |keys|;
    assert SeriesIn(found) <==> SERIES in keys by {
      ContainsSameLength(SERIES, SERIES);
    }
    assert lookup.SeriesWrongCase? <==> SERIES !in keys && exists k :: k in keys && Contains(Lower(k), SERIES) by {
      if SERIES !in keys && exists k :: k in keys && Contains(Lower(k), SERIES) {
        var k :| k in keys && Contains(Lower(k), SERIES);
        assert k in SeriesLike(keys);
      }
      if SeriesLike(keys) != [] {
        assert SeriesLike(keys)[0] in SeriesLike(keys);
      }
    }
    var groups :=
      if n == 1 && SeriesIn(found) then OnlySeries
      else if n == 1 then OnlyOtherGroup
      else if n == 0 then NoGroups
      else if SeriesIn(found) then SeriesAndOthers(n - 1)
      else OthersWithoutSeries(n);
    var show := groups.OnlyOtherGroup? || groups.SeriesAndOthers? || groups.OthersWithoutSeries?;
    NamespaceReport(lookup, groups, if show then Some(OtherGroups(keys)) else None)
  }

  /**
   * The levels logged for a namespace report: the section title, the lookup
   * of 'series', the heading for other groups, the verdict on the groups and
   * the groups shown.
   */
  function NamespaceLevels(r: NamespaceReport): seq<int>
  {
    var lookup := if r.lookup.SeriesFound? then INFO else ERROR;
    var groups := if r.groups.IsError() then ERROR else if r.groups.SeriesAndOthers? then WARN else INFO;
    SECTION_TITLE + [lookup, INFO, groups] + (if r.shown.Some? then [DEBUG] else [])
  }

  /**
   * The errors counted for a namespace check: one when 'series' is absent
   * (in the wrong case or altogether) and one more when the groups on root
   * are wrong; a warning only for 'series' beside other groups.
   */
  lemma NamespaceCounts(keys: seq<string>)
    ensures var levels := NamespaceLevels(ValidateNamespace(keys));
            && ErrorsIn(levels) == (if SERIES in keys then 0 else 1) + (if SERIES !in keys || |keys| == 0 then 1 else 0)
            && WarningsIn(levels) == (if SERIES in keys && |keys| > 1 then 1 else 0)
  {
    var r := ValidateNamespace(keys);
    ReportCounts(r);
  }

  /** A report's levels hold an error for a failed lookup and for wrong groups, and a warning for extra groups. */
  lemma ReportCounts(r: NamespaceReport)
    ensures ErrorsIn(NamespaceLevels(r)) ==
              (if r.lookup.SeriesFound? then 0 else 1) + (if r.groups.IsError() then 1 else 0)
    ensures WarningsIn(NamespaceLevels(r)) == if r.groups.SeriesAndOthers? then 1 else 0
  {
    var lookup := if r.lookup.SeriesFound? then INFO else ERROR;
    var groups := if r.groups.IsError() then ERROR else if r.groups.SeriesAndOthers? then WARN else INFO;
    LineCounts(lookup, groups, if r.shown.Some? then [DEBUG] else []);
  }

  /** The counts of the title, the lookup line, the heading, the groups line and the optional DEBUG line. */
  lemma LineCounts(lookup: int, groups: int, tail: seq<int>)
    requires tail == [] || tail == [DEBUG]
    ensures ErrorsIn(SECTION_TITLE + [lookup, INFO, groups] + tail) ==
              (if IsError(lookup) then 1 else 0) + (if IsError(groups) then 1 else 0)
    ensures WarningsIn(SECTION_TITLE + [lookup, INFO, groups] + tail) ==
              (if IsWarning(lookup) then 1 else 0) + (if IsWarning(groups) then 1 else 0)
  {
    var rest := [INFO, groups] + tail;
    assert SECTION_TITLE + [lookup, INFO, groups] + tail == SECTION_TITLE + ([lookup] + rest);
    SectionTitleQuiet();
    ErrorsInConcat(SECTION_TITLE, [lookup] + rest);
    WarningsInConcat(SECTION_TITLE, [lookup] + rest);
    ErrorsInConcat([lookup], rest);
    WarningsInConcat([lookup], rest);
    ErrorsInConcat([INFO, groups], tail);
    WarningsInConcat([INFO, groups], tail);
  }

  /** A file whose only group is 'Series' is reported in the wrong case and as lacking 'series'. */
  lemma OnlyCapitalisedSeries()
    ensures ValidateNamespace(["Series"]) ==
            NamespaceReport(SeriesWrongCase(["Series"]), OnlyOtherGroup, Some(["Series"]))
  {
    var keys := ["Series"];
    assert Lower("Series") == SERIES;
    ContainsSameLength(SERIES, SERIES);
    ContainsSameLength("Series", SERIES);
    assert "Series"[0] != SERIES[0];
    assert SeriesLike(keys) == ["Series"];
    assert OtherGroups(keys) == ["Series"];
  }
}
