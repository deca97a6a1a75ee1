/** The run of `main` on one page load, with the host page, the network and
    the DOM reduced to the outcomes the script branches on, followed by any
    number of clicks on the injected link. Network requests and tracking
    beacons are recorded as effects, in the order they are issued. */
module Widget {
  import opened Js
  import Cookie
  import opened Bucketing
  import opened Forecast
  import opened Panel

  /** `latitudeLongitude` from the host page's embedded data. */
  datatype Coordinates = Coordinates(latitude: real, longitude: real)

  /** The forecast request's result: a rejected or non-ok fetch, or a JSON
      body whose `list` may be missing. */
  datatype Reply = Failed | Body(list: Option<seq<Entry>>)

  /** What the host page's DOM offers: no summary-links container, a
      container without a `ul`, or both. */
  datatype Anchor = NoContainer | NoList | Ready

  /** Everything `main` reads from outside: the cookie header, the embedded
      location (`None` also when the property path itself is missing), the
      forecast request's result, and the DOM anchor. */
  datatype Page = Page(cookieHeader: string, location: Option<Coordinates>, reply: Reply, anchor: Anchor)

  /** Why a run ended without a panel. */
  datatype Stop =
    | DecodeThrew      // decodeURIComponent threw; the error escapes main
    | NoUserId         // the cookie is missing or empty
    | InGroupB         // the user is in the control group
    | NoCoordinates    // no location in the page data
    | FetchFailed      // fetchWeatherData threw
    | NoWeatherList    // the reply has no list
    | MalformedEntry   // one of the last three entries threw a TypeError
    | NoContainerFound // the summary-links container is absent
    | NoListFound      // the container has no `ul`; appendChild threw

  /** Requests the script issues. */
  datatype Effect = FetchForecast(at: Coordinates) | TrackClick(group: Group, action: string)

  /** The injected panel: the user's group, its cards and its display. */
  datatype Mounted = Mounted(group: Group, cards: seq<Card>, display: Display)

  datatype Outcome = Stopped(reason: Stop) | Rendered(panel: Mounted)

  datatype Run = Run(effects: seq<Effect>, outcome: Outcome)

  /** The action name sent with every click. */
  const ClickAction: string := "weather_info_click"

  /** The user id passes the gate: a non-empty decoded cookie value whose
      group is A. */
  ghost predicate GateOpen(page: Page, decode: string -> Option<string>)
  {
    var lookup := Cookie.GetCookie(page.cookieHeader, Cookie.CookieName, decode);
    lookup.Found? && lookup.value != "" && GetTestGroup(lookup.value) == A
  }

  /** `main()` */
  function Main(page: Page, decode: string -> Option<string>): (run: Run)
    ensures |run.effects| <= 1
    ensures forall e :: e in run.effects ==> page.location.Some? && e == FetchForecast(page.location.value)
    ensures run.effects != [] <==> GateOpen(page, decode) && page.location.Some?
    ensures var lookup := Cookie.GetCookie(page.cookieHeader, Cookie.CookieName, decode);
      (lookup.Missing? || lookup == Cookie.Found("")) ==> run == Run([], Stopped(NoUserId))
    ensures var lookup := Cookie.GetCookie(page.cookieHeader, Cookie.CookieName, decode);
      lookup.Found? && lookup.value != "" && GetTestGroup(lookup.value) == B ==>
        run == Run([], Stopped(InGroupB))
    ensures run.outcome.Rendered? ==>
      && GateOpen(page, decode)
      && page.anchor == Ready
      && page.reply.Body? && page.reply.list.Some?
      && Present(page.reply.list.value) == Some(run.outcome.panel.cards)
      && run.outcome.panel == Mounted(A, run.outcome.panel.cards, Initial)
      && page.location.Some?
      && run.effects == [FetchForecast(page.location.value)]
    ensures run.outcome.Rendered? <==>
      && GateOpen(page, decode)
      && page.location.Some?
      && page.reply.Body? && page.reply.list.Some?
      && Present(page.reply.list.value).Some?
      && page.anchor == Ready
  {
    match Cookie.GetCookie(page.cookieHeader, Cookie.CookieName, decode)
    case Malformed => Run([], Stopped(DecodeThrew))
    case Missing => Run([], Stopped(NoUserId))
    case Found(userId) =>
      if userId == "" then Run([], Stopped(NoUserId))
      else
        var group := GetTestGroup(userId);
        if group == B then Run([], Stopped(InGroupB))
        else
          match page.location
          case None => Run([], Stopped(NoCoordinates))
          case Some(at) =>
            var fetched := [FetchForecast(at)];
            match page.reply
            case Failed => Run(fetched, Stopped(FetchFailed))
            case Body(None) => Run(fetched, Stopped(NoWeatherList))
            case Body(Some(list)) =>
              match Present(list)
              case None => Run(fetched, Stopped(MalformedEntry))
              case Some(cards) =>
                match page.anchor
                case NoContainer => Run(fetched, Stopped(NoContainerFound))
                case NoList => Run(fetched, Stopped(NoListFound))
                case Ready => Run(fetched, Rendered(Mounted(group, cards, Initial)))
  }

  /** One click on the link: toggle the panel, then send a tracking beacon
      that carries the panel's group. */
  function Click(m: Mounted): (r: (Mounted, Effect))
    ensures r.0.group == m.group && r.0.cards == m.cards
    ensures r.0.display != m.display
    ensures Css(r.0.display) == "flex" <==> Css(m.display) == "none"
    ensures r.1 == TrackClick(m.group, ClickAction)
  {
    (m.(display := Toggle(m.display)), TrackClick(m.group, ClickAction))
  }

  /** `n` clicks in a row. */
  function ClickMany(m: Mounted, n: nat): (Mounted, seq<Effect>)
  {
    if n == 0 then (m, [])
    else
      var (m1, es) := ClickMany(m, n - 1);
      var (m2, e) := Click(m1);
      (m2, es + [e])
  }

  /** `n` clicks leave group and cards alone, toggle the display `n` times,
      and send `n` identical beacons. */
  lemma {:induction false} ClickManySpec(m: Mounted, n: nat)
    ensures ClickMany(m, n).0 == m.(display := Clicks(m.display, n))
    ensures |ClickMany(m, n).1| == n
    ensures forall k :: 0 <= k < n ==> ClickMany(m, n).1[k] == TrackClick(m.group, ClickAction)
  {
    if n > 0 {
      ClickManySpec(m, n - 1);
    }
  }

  /** The effects of a rendered run: its fetch, then one group-A beacon per
      click; the panel keeps its group and cards and is shown after an odd
      number of clicks. */
  lemma ClicksAfterFetch(fetch: Effect, m: Mounted, clicks: nat)
    requires m.group == A && m.display == Initial
    ensures var effects := [fetch] + ClickMany(m, clicks).1;
      && |effects| == 1 + clicks
      && effects[0] == fetch
      && (forall k :: 1 <= k < |effects| ==> effects[k] == TrackClick(A, ClickAction))
      && (fetch.FetchForecast? ==> forall e :: e in effects && e.TrackClick? ==> e == TrackClick(A, ClickAction))
      && ClickMany(m, clicks).0 == m.(display := Clicks(Initial, clicks))
      && (Css(ClickMany(m, clicks).0.display) == "flex" <==> clicks % 2 == 1)
  {
    ClickManySpec(m, clicks);
    ShownAfterOddClicks(clicks);
    var effects := [fetch] + ClickMany(m, clicks).1;
    if fetch.FetchForecast? {
      forall e | e in effects && e.TrackClick?
        ensures e == TrackClick(A, ClickAction)
      {
        var k :| 0 <= k < |effects| && effects[k] == e;
        if k > 0 {
          assert effects[k] == ClickMany(m, clicks).1[k - 1];
        }
      }
    }
  }

  /** A page load followed by `clicks` clicks on the link (clicks only reach
      the script once the link exists). */
  function Session(page: Page, decode: string -> Option<string>, clicks: nat): (run: Run)
    ensures !GateOpen(page, decode) ==> run.effects == []
    ensures forall e :: e in run.effects && e.TrackClick? ==> e == TrackClick(A, ClickAction)
    ensures run.outcome.Stopped? ==> run == Main(page, decode)
    ensures run.outcome.Rendered? ==>
      && |run.effects| == 1 + clicks
      && page.location.Some?
      && run.effects[0] == FetchForecast(page.location.value)
      && (Css(run.outcome.panel.display) == "flex" <==> clicks % 2 == 1)
    ensures run.outcome.Rendered? ==>
      forall k :: 1 <= k < |run.effects| ==> run.effects[k] == TrackClick(A, ClickAction)
    ensures run.outcome.Rendered? <==> Main(page, decode).outcome.Rendered?
    ensures run.outcome.Rendered? ==>
      && Main(page, decode).outcome.Rendered?
      && run.outcome.panel == Main(page, decode).outcome.panel.(display := Clicks(Initial, clicks))
  {
    var run := Main(page, decode);
    match run.outcome
    case Stopped(_) => run
    case Rendered(m) =>
      var (m', es) := ClickMany(m, clicks);
      ClicksAfterFetch(run.effects[0], m, clicks);
      Run(run.effects + es, Rendered(m'))
  }
}
