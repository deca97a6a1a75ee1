/** Forecast presentation: keep the last three list entries, cut `HH:MM`
    out of each entry's `dt_txt`, and choose an icon from the weather
    description by a prioritised substring test. */
module Forecast {
  import opened Js

  /** The icons `getWeatherIcon` can return. */
  datatype Icon = Storm | Cloud | Sun | Rainbow

  /** The emoji text of each icon. */
  function IconText(icon: Icon): string
  {
    match icon
    case Storm => "\U{26C8}\U{FE0F}"
    case Cloud => "\U{2601}\U{FE0F}"
    case Sun => "\U{1F31E}"
    case Rainbow => "\U{1F308}"
  }

  /** `getWeatherIcon(weatherDescription)`: "rain" wins over everything,
      "cloud" over "sun", and a description with none of the three gets the
      rainbow. The test is case-sensitive. */
  function WeatherIcon(description: string): (icon: Icon)
    ensures Contains(description, "rain") ==> icon == Storm
    ensures !Contains(description, "rain") && Contains(description, "cloud") ==> icon == Cloud
    ensures !Contains(description, "rain") && !Contains(description, "cloud") && Contains(description, "sun") ==> icon == Sun
    ensures !Contains(description, "rain") && !Contains(description, "cloud") && !Contains(description, "sun") ==> icon == Rainbow
  {
    if Includes(description, "rain") then Storm
    else if Includes(description, "cloud") then Cloud
    else if Includes(description, "sun") then Sun
    else Rainbow
  }

  /** One element of the forecast `list`: its `dt_txt`, the descriptions of
      its `weather` array, and `main.temp`. */
  datatype Entry = Entry(dtTxt: string, conditions: seq<string>, temp: real)

  /** One rendered weather card. */
  datatype Card = Card(time: string, description: string, icon: Icon, temp: real)

  /** `list.slice(-3)` */
  function LastThree<T>(list: seq<T>): (r: seq<T>)
    ensures |r| == Min(3, |list|)
    ensures r == list[|list| - |r|..]
  {
    SliceFrom(list, -3)
  }

  /** `dt_txt.split(" ")[1].substring(0, 5)`, or `None` where `[1]` is
      `undefined` (no space) and `.substring` throws. */
  function TimeOf(dtTxt: string): (r: Option<string>)
    ensures r.None? <==> ' ' !in dtTxt
    ensures r.Some? ==> |r.value| <= 5 && ' ' !in r.value
  {
    var parts := Split(dtTxt, " ");
    SplitCharCount(dtTxt, ' ');
    if |parts| < 2 then None
    else
      SplitPartsFree(dtTxt, " ");
      forall k | 0 <= k < |parts[1]|
        ensures parts[1][k] != ' '
      {
        OccursChar(parts[1], ' ', k);
      }
      Some(Substring(parts[1], 0, 5))
  }

  /** Where the first space of `dtTxt` is at `i`, the time is the longest
      space-free prefix of the text after it, cut at five characters (five
      code units in JavaScript; the same below U+10000). */
  lemma TimeAfterFirstSpace(dtTxt: string, i: int)
    requires 0 <= i < |dtTxt| && dtTxt[i] == ' '
    requires forall k :: 0 <= k < i ==> dtTxt[k] != ' '
    ensures TimeOf(dtTxt).Some?
    ensures var t, after := TimeOf(dtTxt).value, dtTxt[i + 1..];
      && t <= after
      && (|t| == 5 || |t| == |after| || after[|t|] == ' ')
  {
    var after := dtTxt[i + 1..];
    OccursChar(dtTxt, ' ', i);
    forall k | 0 <= k < i
      ensures !Occurs(dtTxt, " ", k)
    {
      OccursChar(dtTxt, ' ', k);
    }
    SplitFirst(dtTxt, " ");
    assert IndexOf(dtTxt, " ") == Some(i);
    assert Split(dtTxt, " ")[1] == Split(after, " ")[0];
    SplitCharFirst(after, ' ');
  }

  /** `dt_txt` in the upstream layout "YYYY-MM-DD HH:MM:SS": one space, at
      index 10, among 19 characters. */
  ghost predicate DateTimeText(ts: string)
  {
    |ts| == 19 && ts[10] == ' ' && forall k :: 0 <= k < |ts| && k != 10 ==> ts[k] != ' '
  }

  /** For that layout the time is exactly "HH:MM". */
  lemma TimeOfDateTime(ts: string)
    requires DateTimeText(ts)
    ensures TimeOf(ts) == Some(ts[11..16])
  {
    TimeAfterFirstSpace(ts, 10);
    var t, after := TimeOf(ts).value, ts[11..];
    assert forall k :: 0 <= k < |after| ==> after[k] == ts[11 + k];
    assert t == ts[11..][..5] == ts[11..16];
  }

  /** An entry's card, or `None` where building it throws a `TypeError`
      (no space in `dt_txt`, or an empty `weather` array). */
  function CardOf(e: Entry): (r: Option<Card>)
    ensures r.Some? <==> ' ' in e.dtTxt && |e.conditions| > 0
    ensures r.Some? ==> && Some(r.value.time) == TimeOf(e.dtTxt)
                        && r.value.description == e.conditions[0]
                        && r.value.icon == WeatherIcon(e.conditions[0])
                        && r.value.temp == e.temp
  {
    match TimeOf(e.dtTxt)
    case None => None
    case Some(t) =>
      if |e.conditions| == 0 then None
      else Some(Card(t, e.conditions[0], WeatherIcon(e.conditions[0]), e.temp))
  }

  /** `entries.map(...)`: all cards, or `None` as soon as one entry throws. */
  function Cards(entries: seq<Entry>): (r: Option<seq<Card>>)
    ensures r.Some? <==> forall k :: 0 <= k < |entries| ==> CardOf(entries[k]).Some?
    ensures r.Some? ==> |r.value| == |entries|
    ensures r.Some? ==> forall k :: 0 <= k < |entries| ==> CardOf(entries[k]) == Some(r.value[k])
  {
    if entries == [] then Some([])
    else
      match CardOf(entries[0])
      case None => None
      case Some(c) =>
        match Cards(entries[1..])
        case None => None
        case Some(cs) => Some([c] + cs)
  }

  /** `list.slice(-3).map(...)`: the cards of the last `min(3, n)` entries, in
      their original order; the result fails exactly when one of those
      entries is malformed. */
  function Present(list: seq<Entry>): (r: Option<seq<Card>>)
    ensures r.Some? ==> |r.value| == Min(3, |list|)
    ensures r.Some? ==> forall k :: 0 <= k < |r.value| ==>
      CardOf(list[|list| - |r.value| + k]) == Some(r.value[k])
    ensures r.None? <==> exists k :: Max(0, |list| - 3) <= k < |list| && CardOf(list[k]).None?
  {
    Cards(LastThree(list))
  }

  /** Entries older than the last three never affect the panel. */
  lemma PresentIgnoresOlder(older: seq<Entry>, list: seq<Entry>)
    requires |list| >= 3
    ensures Present(older + list) == Present(list)
  {
    assert LastThree(older + list) == LastThree(list);
  }
}
