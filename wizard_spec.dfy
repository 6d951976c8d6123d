/**
  The page-local state of the reporting wizard in Mission4.js, as a value, and every
  handler of the page as a function from the old state to the new one. The imperative
  controller in wizard_controller.dfy is proved to follow these functions; the lemmas
  here state what the handlers promise.

  DOM elements become fields: `pages` holds the `active` class of each page section,
  `referenceVisible` / `contactFormVisible` the `display` style of the reference
  container and the contact form, `referenceText` the reference number's text,
  `addressInput` the address field. The Leaflet map is reduced to whether it exists and
  its viewport, and the marker to whether it exists, its position and its popup.
  Deferred `setTimeout` callbacks and unanswered geocoding requests are kept as pending
  lists; the event loop runs any one of them at any later time.
*/
module WizardSpec {
  import opened Wrappers
  import CoordPattern
  import ReferenceCode

  /** page order: 0 home, 1 issue type, 2 details, 3 location, 4 contact, 5 confirmation */
  const LocationPage: int := 3
  const ConfirmationPage: int := 5
  const MinPages: nat := 6

  const DefaultZoom: int := 13
  const FoundZoom: int := 16
  /** Wellington, where a new map is centred and the default marker placed */
  const DefaultCenter: Point := Point("-41.2865", "174.7762")

  /** A coordinate, kept as the text it was given in (the source parses it to a float). */
  datatype Point = Point(lat: string, lon: string)

  /** The text of the marker's popup. */
  datatype Popup =
    | DefaultLocation
    | Selected(lat: string, lng: string)      // a map click, coordinates to 5 decimals
    | Coordinates(lat: string, lon: string)   // coordinates typed into the address field
    | Named(name: string)                     // the geocoder's display name, or the query

  datatype Marker = Marker(at: Point, popup: Popup)
  datatype Viewport = Viewport(center: Point, zoom: int)

  /** A deferred callback: the 60 ms map creation or the 100 ms size refresh. */
  datatype Timer = CreateMap | RefreshSize

  datatype Alert = EnterAddress | AddressNotFound | GeocodingError | FillNameAndEmail

  /** One geocoding result; an absent `display_name` is the empty string. */
  datatype Place = Place(lat: string, lon: string, displayName: string)

  /** How a geocoding request ends: a transport or parse failure, or a list of results. */
  datatype Reply = Failed | Places(results: seq<Place>)

  datatype Session = Session(
    leafletLoaded: bool,          // whether the map library is present on the page
    pages: seq<bool>,             // the `active` class of each page section
    currentPage: int,
    sharedReport: bool,
    selectedIssue: string,
    mapInitialized: bool,
    view: Option<Viewport>,       // `map` (None while it is null), with its viewport
    marker: Option<Marker>,
    mapsCreated: nat,             // how many map instances were ever constructed
    timers: seq<Timer>,           // callbacks scheduled and not yet run
    lookups: seq<string>,         // geocoding queries sent and not yet answered
    addressInput: string,
    contactFormVisible: bool,
    referenceVisible: bool,
    referenceText: string,
    alerts: seq<Alert>)           // every alert shown so far

  /** Page `index` active, every other page inactive. */
  function Showing(n: nat, index: int): seq<bool> {
    seq(n, i => i == index)
  }

  predicate OneActive(pages: seq<bool>) {
    exists k :: 0 <= k < |pages| && pages == Showing(|pages|, k)
  }

  /** What holds of every state the page can reach. */
  predicate Inv(s: Session) {
    |s.pages| >= MinPages &&
    0 <= s.currentPage < |s.pages| &&
    OneActive(s.pages) &&
    (s.view.Some? ==> s.mapInitialized && s.leafletLoaded) &&
    (s.marker.Some? ==> s.view.Some?) &&
    s.mapsCreated == (if s.view.Some? then 1 else 0)
  }

  /** The state after the script has loaded and run `showPage(currentPage)`. */
  function Init(pageCount: nat, leafletLoaded: bool): Session {
    Session(leafletLoaded, Showing(pageCount, 0), 0, false, "", false, None, None, 0,
            [], [], "", false, false, "", [])
  }

  // ---------- Navigation ----------

  /** `showPage`: toggles the pages and, on the location page, schedules map work.
      It does not touch `currentPage`. */
  function ShowPage(s: Session, index: int): Session {
    s.(pages := Showing(|s.pages|, index), timers := Schedule(s, index))
  }

  /** The pending callbacks after `showPage(index)`: the location page queues the map
      creation until `mapInitialized` is set, and a size refresh after that. */
  function Schedule(s: Session, index: int): seq<Timer> {
    if index != LocationPage then s.timers
    else if !s.mapInitialized then s.timers + [CreateMap]
    else s.timers + [RefreshSize]
  }

  function NextPage(s: Session): Session {
    if s.currentPage < |s.pages| - 1 then
      ShowPage(s.(currentPage := s.currentPage + 1), s.currentPage + 1)
    else s
  }

  function PrevPage(s: Session): Session {
    if s.currentPage > 0 then
      ShowPage(s.(currentPage := s.currentPage - 1), s.currentPage - 1)
    else s
  }

  function SelectIssue(s: Session, issue: string): Session {
    NextPage(s.(selectedIssue := issue))
  }

  // ---------- Map ----------

  /** `initMap`: nothing without the library, a size refresh if the map exists, and
      otherwise a new map at the default view with the default marker. */
  function InitMap(s: Session): Session {
    if !s.leafletLoaded then s
    else if s.view.Some? then s
    else s.(view := Some(Viewport(DefaultCenter, DefaultZoom)),
            marker := Some(Marker(DefaultCenter, DefaultLocation)),
            mapsCreated := s.mapsCreated + 1)
  }

  function RemoveAt<T>(xs: seq<T>, k: nat): seq<T>
    requires k < |xs|
  {
    xs[..k] + xs[k + 1..]
  }

  /** The event loop runs pending callback `k`. Map creation sets `mapInitialized`
      whether or not `initMap` could build a map. */
  function FireTimer(s: Session, k: nat): Session
    requires k < |s.timers|
  {
    var rest := s.(timers := RemoveAt(s.timers, k));
    match s.timers[k]
    case CreateMap => InitMap(rest).(mapInitialized := true)
    case RefreshSize => rest
  }

  /** The map's click handler, registered when the map is created; `lat` and `lng`
      are the clicked coordinates as `toFixed(5)` prints them. */
  function MapClick(s: Session, lat: string, lng: string): Session {
    if s.view.None? then s
    else s.(marker := Some(Marker(Point(lat, lng), Selected(lat, lng))),
            addressInput := lat + ", " + lng)
  }

  /** The user edits the address field. */
  function TypeAddress(s: Session, text: string): Session {
    s.(addressInput := text)
  }

  /** Shared tail of both `findAddress` branches: show the location page if the map was
      never initialised, then, only if a map exists now, zoom in on `at` and put the
      single marker there. */
  function MoveTo(s: Session, at: Point, popup: Popup): Session {
    var shown := if !s.mapInitialized then ShowPage(s, LocationPage) else s;
    if shown.view.Some? then
      shown.(view := Some(Viewport(at, FoundZoom)), marker := Some(Marker(at, popup)))
    else shown
  }

  /** `findAddress` up to the network call: empty input, literal coordinates, or a
      geocoding request for the trimmed text. */
  function FindAddress(s: Session): Session {
    var address := CoordPattern.Trim(s.addressInput);
    if address == [] then s.(alerts := s.alerts + [EnterAddress])
    else
      match CoordPattern.MatchCoordPair(address)
      case Some((lat, lon)) => MoveTo(s, Point(lat, lon), Coordinates(lat, lon))
      case None => s.(lookups := s.lookups + [address])
  }

  /** `findAddress` after `await`: the answer to pending request `k` arrives. */
  function GeocodeReply(s: Session, k: nat, reply: Reply): Session
    requires k < |s.lookups|
  {
    var query := s.lookups[k];
    var rest := s.(lookups := RemoveAt(s.lookups, k));
    match reply
    case Failed => rest.(alerts := rest.alerts + [GeocodingError])
    case Places(results) =>
      if |results| == 0 then rest.(alerts := rest.alerts + [AddressNotFound])
      else
        var first := results[0];
        var name := if first.displayName != "" then first.displayName else query;
        MoveTo(rest, Point(first.lat, first.lon), Named(name))
  }

  // ---------- Report submission ----------

  function ReportAnonymous(s: Session): Session {
    ShowPage(s.(sharedReport := false), ConfirmationPage).(referenceVisible := false)
  }

  function ShareDetails(s: Session): Session {
    s.(sharedReport := true, contactFormVisible := true)
  }

  /** `submitReport` with the name and email fields' values; `draws` are the random
      indices `generateReference` would use. */
  function SubmitReport(s: Session, name: string, email: string, draws: seq<nat>): Session
    requires ReferenceCode.ValidDraws(draws)
  {
    if name != "" && email != "" then
      var shown := ShowPage(s, ConfirmationPage);
      if s.sharedReport then
        shown.(referenceText := ReferenceCode.CodeOf(draws), referenceVisible := true)
      else shown.(referenceVisible := false)
    else s.(alerts := s.alerts + [FillNameAndEmail])
  }

  // ---------- The event loop ----------

  datatype Event =
    | Next | Prev | Select(issue: string)
    | Type(text: string) | Find | Answer(lookup: nat, reply: Reply)
    | Fire(timer: nat) | Click(lat: string, lng: string)
    | Anonymous | Share | Submit(name: string, email: string, draws: seq<nat>)

  /** An event that can occur: only a pending callback or request can complete. */
  predicate Enabled(s: Session, e: Event) {
    match e
    case Answer(k, _) => k < |s.lookups|
    case Fire(k) => k < |s.timers|
    case Submit(_, _, draws) => ReferenceCode.ValidDraws(draws)
    case _ => true
  }

  function Step(s: Session, e: Event): Session
    requires Enabled(s, e)
  {
    match e
    case Next => NextPage(s)
    case Prev => PrevPage(s)
    case Select(issue) => SelectIssue(s, issue)
    case Type(text) => TypeAddress(s, text)
    case Find => FindAddress(s)
    case Answer(k, reply) => GeocodeReply(s, k, reply)
    case Fire(k) => FireTimer(s, k)
    case Click(lat, lng) => MapClick(s, lat, lng)
    case Anonymous => ReportAnonymous(s)
    case Share => ShareDetails(s)
    case Submit(name, email, draws) => SubmitReport(s, name, email, draws)
  }

  /** Run the events in order; an event that cannot occur in the state it meets is skipped. */
  function Run(s: Session, events: seq<Event>): Session
    decreases |events|
  {
    if events == [] then s
    else
      var t := if Enabled(s, events[0]) then Step(s, events[0]) else s;
      Run(t, events[1..])
  }
}
