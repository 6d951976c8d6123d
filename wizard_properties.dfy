/**
  What the handlers of Mission4.js promise, stated over the functions of WizardSpec:
  page bounds and exclusivity, the one-shot map initialisation, the address branches,
  the two submission paths, and the invariant over every run of the event loop.
*/
module WizardProperties {
  import opened Wrappers
  import opened WizardSpec
  import CoordPattern
  import ReferenceCode

  // ---------- Pages ----------

  /** The page the script shows on load is the only active one. */
  lemma InitInv(pageCount: nat, leafletLoaded: bool)
    requires pageCount >= MinPages
    ensures Inv(Init(pageCount, leafletLoaded))
    ensures Init(pageCount, leafletLoaded).pages[0]
  {
    assert Init(pageCount, leafletLoaded).pages == Showing(pageCount, 0);
  }

  /** After `showPage(index)` page `index` is active and every other page inactive;
      `currentPage` and everything but the pages and the pending callbacks are as before. */
  lemma ShowPageActive(s: Session, index: int)
    ensures |ShowPage(s, index).pages| == |s.pages|
    ensures forall j :: 0 <= j < |s.pages| ==> ShowPage(s, index).pages[j] == (j == index)
    ensures 0 <= index < |s.pages| ==> OneActive(ShowPage(s, index).pages)
    ensures ShowPage(s, index).currentPage == s.currentPage
    ensures ShowPage(s, index) == s.(pages := ShowPage(s, index).pages, timers := ShowPage(s, index).timers)
  {
  }

  /** Away from the location page no callback is scheduled; on it exactly one is:
      map creation while `mapInitialized` is false, a size refresh once it is true. */
  lemma ShowPageSchedules(s: Session, index: int)
    ensures index != LocationPage ==> ShowPage(s, index).timers == s.timers
    ensures index == LocationPage ==>
      exists t :: ShowPage(s, index).timers == s.timers + [t] && (t == CreateMap <==> !s.mapInitialized)
  {
    if index == LocationPage {
      var t := if s.mapInitialized then RefreshSize else CreateMap;
      assert ShowPage(s, index).timers == s.timers + [t];
    }
  }

  /** Showing a page keeps the invariant when the page exists. */
  lemma ShowPageInv(s: Session, index: int)
    requires Inv(s) && 0 <= index < |s.pages|
    ensures Inv(ShowPage(s, index))
  {
    ShowPageActive(s, index);
  }

  /** `nextPage` advances below the last page, and at the last page changes nothing. */
  lemma NextPageMoves(s: Session)
    requires Inv(s)
    ensures Inv(NextPage(s))
    ensures s.currentPage < |s.pages| - 1 ==>
      NextPage(s).currentPage == s.currentPage + 1 &&
      NextPage(s).pages == Showing(|s.pages|, s.currentPage + 1)
    ensures s.currentPage == |s.pages| - 1 ==> NextPage(s) == s
  {
    if s.currentPage < |s.pages| - 1 {
      ShowPageInv(s.(currentPage := s.currentPage + 1), s.currentPage + 1);
    }
  }

  /** `prevPage` goes back above page 0, and at page 0 changes nothing. */
  lemma PrevPageMoves(s: Session)
    requires Inv(s)
    ensures Inv(PrevPage(s))
    ensures s.currentPage > 0 ==>
      PrevPage(s).currentPage == s.currentPage - 1 &&
      PrevPage(s).pages == Showing(|s.pages|, s.currentPage - 1)
    ensures s.currentPage == 0 ==> PrevPage(s) == s
  {
    if s.currentPage > 0 {
      ShowPageInv(s.(currentPage := s.currentPage - 1), s.currentPage - 1);
    }
  }

  /** Below the last page, going forward and back returns to the same page. */
  lemma NextThenPrev(s: Session)
    requires Inv(s) && s.currentPage < |s.pages| - 1
    ensures PrevPage(NextPage(s)).currentPage == s.currentPage
    ensures PrevPage(NextPage(s)).pages == Showing(|s.pages|, s.currentPage)
  {
    NextPageMoves(s);
    PrevPageMoves(NextPage(s));
  }

  /** `selectIssue(t)` records `t` and otherwise is `nextPage`. */
  lemma SelectIssueIsNextPage(s: Session, issue: string)
    ensures SelectIssue(s, issue) == NextPage(s).(selectedIssue := issue)
  {
    if s.currentPage < |s.pages| - 1 {
      var i := s.currentPage + 1;
      assert SelectIssue(s, issue) == ShowPage(s.(selectedIssue := issue).(currentPage := i), i);
      assert NextPage(s) == ShowPage(s.(currentPage := i), i);
      assert ShowPage(s.(selectedIssue := issue).(currentPage := i), i) ==
             ShowPage(s.(currentPage := i), i).(selectedIssue := issue);
    }
  }

  // ---------- The map ----------

  /** `initMap` run twice is `initMap` run once. */
  lemma InitMapIdempotent(s: Session)
    ensures InitMap(InitMap(s)) == InitMap(s)
    ensures InitMap(s).mapsCreated <= s.mapsCreated + 1
  {
  }

  /** The deferred creation sets `mapInitialized`; it builds a map, with the default view
      and the default marker, exactly when the library is present and no map exists. */
  lemma CreateMapFires(s: Session, k: nat)
    requires k < |s.timers| && s.timers[k] == CreateMap
    ensures FireTimer(s, k).mapInitialized
    ensures FireTimer(s, k).timers == RemoveAt(s.timers, k)
    ensures s.view.None? && s.leafletLoaded ==>
      FireTimer(s, k).view == Some(Viewport(DefaultCenter, DefaultZoom)) &&
      FireTimer(s, k).marker == Some(Marker(DefaultCenter, DefaultLocation))
    ensures s.view.Some? || !s.leafletLoaded ==>
      FireTimer(s, k).view == s.view && FireTimer(s, k).marker == s.marker &&
      FireTimer(s, k).mapsCreated == s.mapsCreated
  {
  }

  /** Without the library the flag is still set, and no map ever appears. */
  lemma NoLibraryNoMap(s: Session, k: nat)
    requires Inv(s) && !s.leafletLoaded && k < |s.timers|
    ensures FireTimer(s, k).view.None? && FireTimer(s, k).marker.None?
    ensures s.timers[k] == CreateMap ==> FireTimer(s, k).mapInitialized
  {
  }

  /** Once `mapInitialized` is true, visiting the location page only schedules a size
      refresh: no new creation is ever queued. */
  lemma NoCreationAfterInit(s: Session, index: int)
    requires s.mapInitialized
    ensures multiset(ShowPage(s, index).timers)[CreateMap] == multiset(s.timers)[CreateMap]
  {
    if index == LocationPage {
      assert ShowPage(s, index).timers == s.timers + [RefreshSize];
    }
  }

  /** Once a map exists, no callback replaces it or its marker. */
  lemma FireKeepsMap(s: Session, k: nat)
    requires Inv(s) && s.view.Some? && k < |s.timers|
    ensures FireTimer(s, k).view == s.view && FireTimer(s, k).marker == s.marker
    ensures FireTimer(s, k).mapsCreated == 1
  {
  }

  /** A click moves or creates the one marker and writes its coordinates to the field. */
  lemma ClickPlacesMarker(s: Session, lat: string, lng: string)
    requires s.view.Some?
    ensures MapClick(s, lat, lng).marker == Some(Marker(Point(lat, lng), Selected(lat, lng)))
    ensures MapClick(s, lat, lng).addressInput == lat + ", " + lng
    ensures MapClick(s, lat, lng).view == s.view
  {
  }

  // ---------- Address search ----------

  /** An address that is empty after trimming only raises an alert. */
  lemma EmptyAddressAlerts(s: Session)
    requires CoordPattern.AllSpace(s.addressInput)
    ensures FindAddress(s) == s.(alerts := s.alerts + [EnterAddress])
  {
  }

  /** Text accepted by the coordinate pattern never reaches the geocoder. With a map, the
      viewport zooms to 16 on the coordinates and the single marker sits there. */
  lemma CoordinatesSkipGeocoder(s: Session, lat: string, lon: string)
    requires Inv(s)
    requires CoordPattern.MatchCoordPair(CoordPattern.Trim(s.addressInput)) == Some((lat, lon))
    ensures FindAddress(s).lookups == s.lookups && FindAddress(s).alerts == s.alerts
    ensures s.view.Some? ==>
      FindAddress(s).view == Some(Viewport(Point(lat, lon), FoundZoom)) &&
      FindAddress(s).marker == Some(Marker(Point(lat, lon), Coordinates(lat, lon)))
    ensures Inv(FindAddress(s))
  {
    assert CoordPattern.Trim(s.addressInput) != [];
    if !s.mapInitialized {
      ShowPageInv(s, LocationPage);
    }
  }

  /** Before the map was ever initialised, the first coordinates only show the location
      page and queue the creation; the viewport is not moved, and `currentPage` stays. */
  lemma EarlyCoordinatesMoveNothing(s: Session, lat: string, lon: string)
    requires Inv(s) && !s.mapInitialized
    requires CoordPattern.MatchCoordPair(CoordPattern.Trim(s.addressInput)) == Some((lat, lon))
    ensures FindAddress(s).view.None? && FindAddress(s).marker.None?
    ensures FindAddress(s).pages == Showing(|s.pages|, LocationPage)
    ensures FindAddress(s).currentPage == s.currentPage
    ensures FindAddress(s).timers == s.timers + [CreateMap]
  {
    assert CoordPattern.Trim(s.addressInput) != [];
  }

  /** Any other non-empty text becomes one geocoding request for the trimmed text. */
  lemma OtherTextQueriesGeocoder(s: Session)
    requires CoordPattern.Trim(s.addressInput) != []
    requires CoordPattern.MatchCoordPair(CoordPattern.Trim(s.addressInput)).None?
    ensures FindAddress(s) == s.(lookups := s.lookups + [CoordPattern.Trim(s.addressInput)])
  {
  }

  /** The coordinates a click writes into the field are found again by `findAddress`. */
  lemma ClickThenFind(s: Session, lat: string, lng: string)
    requires Inv(s) && s.view.Some?
    requires CoordPattern.IsNumber(lat) && CoordPattern.IsNumber(lng)
    ensures FindAddress(MapClick(s, lat, lng)).view == Some(Viewport(Point(lat, lng), FoundZoom))
    ensures FindAddress(MapClick(s, lat, lng)).marker == Some(Marker(Point(lat, lng), Coordinates(lat, lng)))
    ensures FindAddress(MapClick(s, lat, lng)).lookups == s.lookups
  {
    CoordPattern.ClickedTextMatches(lat, lng);
    CoordinatesSkipGeocoder(MapClick(s, lat, lng), lat, lng);
  }

  /** The three ends of a geocoding request: failure and no result alert; a result with
      a map moves the viewport and the marker to the first result, and a result without
      one moves nothing, only showing the location page if the map was never initialised. */
  lemma ReplyOutcomes(s: Session, k: nat, reply: Reply)
    requires Inv(s) && k < |s.lookups|
    ensures GeocodeReply(s, k, reply).lookups == RemoveAt(s.lookups, k)
    ensures Inv(GeocodeReply(s, k, reply))
    ensures reply.Failed? ==>
      GeocodeReply(s, k, reply) == s.(lookups := RemoveAt(s.lookups, k), alerts := s.alerts + [GeocodingError])
    ensures reply.Places? && reply.results == [] ==>
      GeocodeReply(s, k, reply) == s.(lookups := RemoveAt(s.lookups, k), alerts := s.alerts + [AddressNotFound])
    ensures reply.Places? && reply.results != [] && s.view.Some? ==>
      var first := reply.results[0];
      GeocodeReply(s, k, reply).view == Some(Viewport(Point(first.lat, first.lon), FoundZoom)) &&
      GeocodeReply(s, k, reply).marker ==
        Some(Marker(Point(first.lat, first.lon),
                    Named(if first.displayName != "" then first.displayName else s.lookups[k])))
    ensures reply.Places? && reply.results != [] && s.view.None? ==>
      GeocodeReply(s, k, reply).view.None? && GeocodeReply(s, k, reply).marker.None? &&
      (!s.mapInitialized ==>
         GeocodeReply(s, k, reply).pages == Showing(|s.pages|, LocationPage) &&
         GeocodeReply(s, k, reply).timers == s.timers + [CreateMap] &&
         GeocodeReply(s, k, reply).currentPage == s.currentPage)
  {
    var rest := s.(lookups := RemoveAt(s.lookups, k));
    if reply.Places? && reply.results != [] && !s.mapInitialized {
      ShowPageInv(rest, LocationPage);
    }
  }

  // ---------- Submission ----------

  /** `reportAnonymous` clears the flag, shows the confirmation page and hides the
      reference, whatever the state before; `currentPage` stays. */
  lemma AnonymousHidesReference(s: Session)
    requires Inv(s)
    ensures !ReportAnonymous(s).sharedReport && !ReportAnonymous(s).referenceVisible
    ensures ReportAnonymous(s).pages == Showing(|s.pages|, ConfirmationPage)
    ensures ReportAnonymous(s).currentPage == s.currentPage
    ensures Inv(ReportAnonymous(s))
  {
    ShowPageInv(s.(sharedReport := false), ConfirmationPage);
  }

  /** A missing name or email only raises an alert. */
  lemma SubmitMissingField(s: Session, name: string, email: string, draws: seq<nat>)
    requires ReferenceCode.ValidDraws(draws) && (name == "" || email == "")
    ensures SubmitReport(s, name, email, draws) == s.(alerts := s.alerts + [FillNameAndEmail])
  {
  }

  /** With both fields filled the confirmation page is shown, and the reference is
      visible exactly when the user chose to share details, showing a well-formed code. */
  lemma SubmitConfirms(s: Session, name: string, email: string, draws: seq<nat>)
    requires Inv(s) && ReferenceCode.ValidDraws(draws) && name != "" && email != ""
    ensures SubmitReport(s, name, email, draws).pages == Showing(|s.pages|, ConfirmationPage)
    ensures SubmitReport(s, name, email, draws).currentPage == s.currentPage
    ensures SubmitReport(s, name, email, draws).referenceVisible == s.sharedReport
    ensures s.sharedReport ==>
      SubmitReport(s, name, email, draws).referenceText == ReferenceCode.CodeOf(draws) &&
      ReferenceCode.IsCode(SubmitReport(s, name, email, draws).referenceText)
    ensures Inv(SubmitReport(s, name, email, draws))
  {
    ShowPageInv(s, ConfirmationPage);
    ReferenceCode.CodeOfIsCode(draws);
  }

  /** Sharing details and then submitting displays the code. */
  lemma ShareThenSubmit(s: Session, name: string, email: string, draws: seq<nat>)
    requires Inv(s) && ReferenceCode.ValidDraws(draws) && name != "" && email != ""
    ensures ShareDetails(s).contactFormVisible
    ensures SubmitReport(ShareDetails(s), name, email, draws).referenceVisible
    ensures ReferenceCode.IsCode(SubmitReport(ShareDetails(s), name, email, draws).referenceText)
  {
    SubmitConfirms(ShareDetails(s), name, email, draws);
  }

  // ---------- Every run ----------

  /** What every event keeps, from state `s` to state `t`: the invariant, the number of
      pages, whether the library is loaded, and an existing map. */
  predicate Keeps(s: Session, t: Session) {
    Inv(t) && |t.pages| == |s.pages| && t.leafletLoaded == s.leafletLoaded &&
    (s.view.Some? ==> t.view.Some?)
  }

  lemma NextKeeps(s: Session)
    requires Inv(s)
    ensures Keeps(s, Step(s, Next))
  {
    NextPageMoves(s);
  }

  lemma PrevKeeps(s: Session)
    requires Inv(s)
    ensures Keeps(s, Step(s, Prev))
  {
    PrevPageMoves(s);
  }

  lemma SelectKeeps(s: Session, issue: string)
    requires Inv(s)
    ensures Keeps(s, Step(s, Select(issue)))
  {
    NextPageMoves(s.(selectedIssue := issue));
  }

  lemma TypeKeeps(s: Session, text: string)
    requires Inv(s)
    ensures Keeps(s, Step(s, Type(text)))
  {
  }

  lemma FindKeeps(s: Session)
    requires Inv(s)
    ensures Keeps(s, Step(s, Find))
  {
    var address := CoordPattern.Trim(s.addressInput);
    if address != [] && CoordPattern.MatchCoordPair(address).Some? {
      var (lat, lon) := CoordPattern.MatchCoordPair(address).value;
      CoordinatesSkipGeocoder(s, lat, lon);
    }
  }

  lemma AnswerKeeps(s: Session, k: nat, reply: Reply)
    requires Inv(s) && k < |s.lookups|
    ensures Keeps(s, Step(s, Answer(k, reply)))
  {
    ReplyOutcomes(s, k, reply);
  }

  lemma FireKeeps(s: Session, k: nat)
    requires Inv(s) && k < |s.timers|
    ensures Keeps(s, Step(s, Fire(k)))
  {
    if s.timers[k] == CreateMap {
      CreateMapFires(s, k);
    }
  }

  lemma ClickKeeps(s: Session, lat: string, lng: string)
    requires Inv(s)
    ensures Keeps(s, Step(s, Click(lat, lng)))
  {
  }

  lemma AnonymousKeeps(s: Session)
    requires Inv(s)
    ensures Keeps(s, Step(s, Anonymous))
  {
    AnonymousHidesReference(s);
  }

  lemma ShareKeeps(s: Session)
    requires Inv(s)
    ensures Keeps(s, Step(s, Share))
  {
  }

  lemma SubmitKeeps(s: Session, name: string, email: string, draws: seq<nat>)
    requires Inv(s) && ReferenceCode.ValidDraws(draws)
    ensures Keeps(s, Step(s, Submit(name, email, draws)))
  {
    if name != "" && email != "" {
      SubmitConfirms(s, name, email, draws);
    }
  }

  /** Every handler, callback and geocoding answer keeps the invariant, the pages, the
      library and an existing map. */
  lemma StepPreservesInv(s: Session, e: Event)
    requires Inv(s) && Enabled(s, e)
    ensures Keeps(s, Step(s, e))
  {
    match e
    case Next => NextKeeps(s);
    case Prev => PrevKeeps(s);
    case Select(issue) => SelectKeeps(s, issue);
    case Type(text) => TypeKeeps(s, text);
    case Find => FindKeeps(s);
    case Answer(k, reply) => AnswerKeeps(s, k, reply);
    case Fire(k) => FireKeeps(s, k);
    case Click(lat, lng) => ClickKeeps(s, lat, lng);
    case Anonymous => AnonymousKeeps(s);
    case Share => ShareKeeps(s);
    case Submit(name, email, draws) => SubmitKeeps(s, name, email, draws);
  }

  /** So does every run of the event loop. */
  lemma {:induction false} RunPreservesInv(s: Session, events: seq<Event>)
    requires Inv(s)
    ensures Keeps(s, Run(s, events))
    decreases |events|
  {
    if events != [] {
      var t := if Enabled(s, events[0]) then Step(s, events[0]) else s;
      if Enabled(s, events[0]) {
        StepPreservesInv(s, events[0]);
      }
      RunPreservesInv(t, events[1..]);
    }
  }

  /** `mapInitialized` is set once and never cleared, whether or not a map was built:
      after the first creation callback no later visit queues another. */
  lemma {:induction false} RunKeepsInitialized(s: Session, events: seq<Event>)
    requires s.mapInitialized
    ensures Run(s, events).mapInitialized
    decreases |events|
  {
    if events != [] {
      var t := if Enabled(s, events[0]) then Step(s, events[0]) else s;
      RunKeepsInitialized(t, events[1..]);
    }
  }

  /** Whatever the user and the network do, the page index stays in range, exactly one
      page is active, at most one map is ever built and none without the library. */
  lemma Reachable(pageCount: nat, leafletLoaded: bool, events: seq<Event>)
    requires pageCount >= MinPages
    ensures var t := Run(Init(pageCount, leafletLoaded), events);
      0 <= t.currentPage < pageCount && |t.pages| == pageCount && OneActive(t.pages) &&
      t.mapsCreated <= 1 && (t.view.Some? ==> leafletLoaded && t.mapInitialized)
  {
    InitInv(pageCount, leafletLoaded);
    RunPreservesInv(Init(pageCount, leafletLoaded), events);
  }

  /** Once a map exists it is never replaced: later events keep exactly one. */
  lemma RunKeepsMap(s: Session, events: seq<Event>)
    requires Inv(s) && s.view.Some?
    ensures Run(s, events).view.Some? && Run(s, events).mapsCreated == 1
    ensures Run(s, events).mapInitialized
  {
    RunPreservesInv(s, events);
  }
}
