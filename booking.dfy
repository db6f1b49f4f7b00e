/** `Scraper.make_booking_url`: the reservation-site link for a found stay. */
module Booking {
  import opened Common

  /** The settings the link reads: the site's base `url` and the chosen
      `equipment`, as their texts. */
  datatype Config = Config(url: string, equipment: string)

  const ResultsPath: string := "/create-booking/results?mapId="

  /** The fixed tail of every link, after the search time. */
  const FilterSuffix: string := "&flexibleSearch=%5Bfalse,false,null,1%5D&filterData=%7B\"-32756\":\"%5B%5B1%5D,0,0,0%5D\"%7D"

  /** Python truthiness of `resourceLocationId`: None and 0 are false. */
  predicate Truthy(locId: Option<int>)
  {
    locId.Some? && locId.value != 0
  }

  /** The link for map `mapId` from day offset `start` to `end`. The clock
      reading `searchTime` (the `%Y-%m-%dT%H:%M:%S.mmm` text) and the date
      rendering `date2str` are parameters. */
  function MakeBookingUrl(cfg: Config, mapId: int, start: int, end: int, locId: Option<int>,
                          searchTime: string, date2str: int -> string): string
  {
    BookingBase(cfg) + (IntToString(mapId) + QueryTail(cfg, start, end, locId, searchTime, date2str))
  }

  /** The site's results page, up to the map id. */
  function BookingBase(cfg: Config): string
  {
    cfg.url + ResultsPath
  }

  /** Every parameter after the map id, with the location parameter last when
      the location id is truthy. */
  function QueryTail(cfg: Config, start: int, end: int, locId: Option<int>,
                     searchTime: string, date2str: int -> string): string
  {
    var params := SearchFields(cfg, start, end, searchTime, date2str) + FilterSuffix;
    if Truthy(locId) then params + LocationParam(locId.value) else params
  }

  function LocationParam(locId: int): string
  {
    "&resourceLocationId=" + IntToString(locId)
  }

  /** The parameters between the map id and the fixed filter tail. */
  function SearchFields(cfg: Config, start: int, end: int, searchTime: string, date2str: int -> string): (r: string)
    ensures |r| > 0 && r[0] == '&'
  {
    StayFields(start, end, date2str) + (IntToString(end - start) + ReservingFields(cfg, searchTime))
  }

  /** The search parameters up to the number of nights: the rendered dates. */
  function StayFields(start: int, end: int, date2str: int -> string): string
  {
    "&" + ("searchTabGroupId=0&bookingCategoryId=0&startDate=" + (date2str(start)
      + ("&endDate=" + (date2str(end) + "&nights="))))
  }

  /** The search parameters after the number of nights. */
  function ReservingFields(cfg: Config, searchTime: string): (r: string)
    ensures |r| > 0 && r[0] == '&'
  {
    "&" + ("isReserving=true&equipmentId=-32768&subEquipmentId=" + (cfg.equipment
      + ("&peopleCapacityCategoryCounts=%5B%5B-32767,null,1,null%5D%5D&searchTime=" + searchTime)))
  }

  /** The prefix of `s` before the first `c`, or all of `s`. */
  function UpTo(s: string, c: char): (r: string)
    ensures |r| <= |s| && r == s[..|r|] && c !in r
    ensures |r| < |s| ==> s[|r|] == c
  {
    if s == [] then [] else if s[0] == c then [] else [s[0]] + UpTo(s[1..], c)
  }

  lemma {:induction false} UpToConcat(a: string, c: char, b: string)
    requires c !in a
    requires |b| > 0 && b[0] == c
    ensures UpTo(a + b, c) == a
  {
    if a != [] {
      assert (a + b)[1..] == a[1..] + b;
      UpToConcat(a[1..], c, b);
    } else {
      assert a + b == b;
    }
  }

  lemma IntToStringDigits(i: int)
    ensures forall k :: 0 <= k < |IntToString(i)| ==> IntToString(i)[k] == '-' || IsDigit(IntToString(i)[k])
    ensures IsDigit(IntToString(i)[|IntToString(i)| - 1])
  {
    var d := NatToString(if i < 0 then -i else i);
    if i < 0 {
      assert IntToString(i) == "-" + d;
    }
  }

  /** The map id reads back from the link: it is the text between `mapId=`
      and the next `&`. */
  lemma BookingUrlMapId(cfg: Config, mapId: int, start: int, end: int, locId: Option<int>,
                        searchTime: string, date2str: int -> string)
    ensures var u := MakeBookingUrl(cfg, mapId, start, end, locId, searchTime, date2str);
      var head := BookingBase(cfg);
      && |head| <= |u| && u[..|head|] == head
      && ParseInt(UpTo(u[|head|..], '&')) == mapId
  {
    var head := BookingBase(cfg);
    var m := IntToString(mapId);
    var rest := QueryTail(cfg, start, end, locId, searchTime, date2str);
    var fields := SearchFields(cfg, start, end, searchTime, date2str);
    assert rest[0] == '&' by {
      if Truthy(locId) {
        assert rest == (fields + FilterSuffix) + LocationParam(locId.value);
      } else {
        assert rest == fields + FilterSuffix;
      }
    }
    var u := MakeBookingUrl(cfg, mapId, start, end, locId, searchTime, date2str);
    assert u[|head|..] == m + rest;
    IntToStringDigits(mapId);
    UpToConcat(m, '&', rest);
    IntToStringRoundTrip(mapId);
  }

  /** The link up to the number of nights: the map id, then the search
      parameters as far as `&nights=`. */
  function NightsHead(cfg: Config, mapId: int, start: int, end: int, date2str: int -> string): string
  {
    BookingBase(cfg) + (IntToString(mapId) + StayFields(start, end, date2str))
  }

  /** The link after the number of nights. */
  function NightsTail(cfg: Config, locId: Option<int>, searchTime: string): (r: string)
    ensures |r| > 0 && r[0] == '&'
  {
    var params := ReservingFields(cfg, searchTime) + FilterSuffix;
    if Truthy(locId) then params + LocationParam(locId.value) else params
  }

  /** The link is its head, the number of nights and its tail. */
  lemma NightsSplit(cfg: Config, mapId: int, start: int, end: int, locId: Option<int>,
                    searchTime: string, date2str: int -> string)
    ensures MakeBookingUrl(cfg, mapId, start, end, locId, searchTime, date2str)
              == NightsHead(cfg, mapId, start, end, date2str) + (IntToString(end - start) + NightsTail(cfg, locId, searchTime))
  {
    var b, m, f := BookingBase(cfg), IntToString(mapId), StayFields(start, end, date2str);
    var n, rf := IntToString(end - start), ReservingFields(cfg, searchTime);
    var tail := NightsTail(cfg, locId, searchTime);
    assert QueryTail(cfg, start, end, locId, searchTime, date2str) == f + (n + tail) by {
      Reassociate(f, n, rf, FilterSuffix);
      if Truthy(locId) {
        Reassociate(f, n, rf + FilterSuffix, LocationParam(locId.value));
      }
    }
    Reassociate(b, m, f, n + tail);
  }

  /** The number of nights reads back from the link: the text between
      `&nights=` and the next `&` is `end - start`. */
  lemma BookingUrlNights(cfg: Config, mapId: int, start: int, end: int, locId: Option<int>,
                         searchTime: string, date2str: int -> string)
    ensures var u := MakeBookingUrl(cfg, mapId, start, end, locId, searchTime, date2str);
      var head := NightsHead(cfg, mapId, start, end, date2str);
      && |head| <= |u| && u[..|head|] == head
      && ParseInt(UpTo(u[|head|..], '&')) == end - start
  {
    var n, tail := IntToString(end - start), NightsTail(cfg, locId, searchTime);
    var head := NightsHead(cfg, mapId, start, end, date2str);
    NightsSplit(cfg, mapId, start, end, locId, searchTime, date2str);
    var u := MakeBookingUrl(cfg, mapId, start, end, locId, searchTime, date2str);
    assert u[|head|..] == n + tail;
    IntToStringDigits(end - start);
    UpToConcat(n, '&', tail);
    IntToStringRoundTrip(end - start);
  }

  /** Links for different maps differ. */
  lemma BookingUrlInjective(cfg: Config, m1: int, m2: int, start: int, end: int, locId: Option<int>,
                            searchTime: string, date2str: int -> string)
    ensures (MakeBookingUrl(cfg, m1, start, end, locId, searchTime, date2str)
             == MakeBookingUrl(cfg, m2, start, end, locId, searchTime, date2str)) <==> m1 == m2
  {
    BookingUrlMapId(cfg, m1, start, end, locId, searchTime, date2str);
    BookingUrlMapId(cfg, m2, start, end, locId, searchTime, date2str);
  }

  predicate EndsWith(s: string, suffix: string)
  {
    |suffix| <= |s| && s[|s| - |suffix|..] == suffix
  }

  /** Helper for `BookingUrlLocation`: a prefix keeps a suffix. */
  lemma EndsWithPrepend(a: string, b: string, suffix: string)
    requires EndsWith(b, suffix)
    ensures EndsWith(a + b, suffix)
  {
    assert (a + b)[|a + b| - |suffix|..] == b[|b| - |suffix|..];
  }

  /** Helper for `BookingUrlLocation`: a text ends with what was appended last. */
  lemma EndsWithSelf(a: string, suffix: string)
    ensures EndsWith(a + suffix, suffix)
  {
    assert (a + suffix)[|a|..] == suffix;
  }

  /** The location parameter is appended exactly when the location id is
      truthy; it is then the last parameter, after the fixed filter tail. */
  lemma BookingUrlLocation(cfg: Config, mapId: int, start: int, end: int, locId: Option<int>,
                           searchTime: string, date2str: int -> string)
    ensures var u := MakeBookingUrl(cfg, mapId, start, end, locId, searchTime, date2str);
      && (EndsWith(u, FilterSuffix) <==> !Truthy(locId))
      && (Truthy(locId) ==> u == MakeBookingUrl(cfg, mapId, start, end, None, searchTime, date2str)
                                 + LocationParam(locId.value))
  {
    var base := BookingBase(cfg);
    var m := IntToString(mapId);
    var params := SearchFields(cfg, start, end, searchTime, date2str) + FilterSuffix;
    var plain := MakeBookingUrl(cfg, mapId, start, end, None, searchTime, date2str);
    assert plain == base + (m + params);
    EndsWithSelf(SearchFields(cfg, start, end, searchTime, date2str), FilterSuffix);
    EndsWithPrepend(m, params, FilterSuffix);
    EndsWithPrepend(base, m + params, FilterSuffix);
    if Truthy(locId) {
      var loc := LocationParam(locId.value);
      assert MakeBookingUrl(cfg, mapId, start, end, locId, searchTime, date2str) == base + (m + (params + loc));
      Reassociate(base, m, params, loc);
      LocationParamEndsInDigit(locId.value);
      assert !IsDigit(FilterSuffix[|FilterSuffix| - 1]);
      EndsWithOtherLast(plain, loc, FilterSuffix);
    } else {
      assert MakeBookingUrl(cfg, mapId, start, end, locId, searchTime, date2str) == plain;
    }
  }

  /** Helper for `NightsSplit` and `BookingUrlLocation`: regroups a concatenation of four parts. */
  lemma Reassociate(a: string, b: string, c: string, d: string)
    ensures a + (b + (c + d)) == (a + (b + c)) + d
  {
  }

  lemma LocationParamEndsInDigit(locId: int)
    ensures |LocationParam(locId)| > 0 && IsDigit(LocationParam(locId)[|LocationParam(locId)| - 1])
  {
    var d := IntToString(locId);
    IntToStringDigits(locId);
    assert LocationParam(locId)[|LocationParam(locId)| - 1] == d[|d| - 1];
  }

  /** Helper for `BookingUrlLocation`: a text whose last character differs does not end with the suffix. */
  lemma EndsWithOtherLast(a: string, b: string, suffix: string)
    requires |b| > 0 && |suffix| > 0 && b[|b| - 1] != suffix[|suffix| - 1]
    ensures !EndsWith(a + b, suffix)
  {
    var u := a + b;
    if |suffix| <= |u| {
      assert u[|u| - |suffix|..][|suffix| - 1] == u[|u| - 1] == b[|b| - 1];
    }
  }
}
