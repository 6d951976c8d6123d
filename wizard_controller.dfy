/**
  The page controller of Mission4.js as it runs: module-level variables become the
  fields of one `Controller`, the page sections an array of `active` flags that
  `ShowPage` toggles in place, and each handler a method. Every method is proved to
  move the state exactly as the WizardSpec function of the same name does, and every
  handler to keep the invariant `Inv`; the internal helpers `ShowPage`, `InitMap` and
  `MoveTo` leave it to their callers. WizardProperties states what those functions promise.
*/
module WizardController {
  import opened Wrappers
  import opened WizardSpec
  import opened WizardProperties
  import CoordPattern
  import ReferenceCode

  class Controller {
    const leafletLoaded: bool
    /** the `active` class of each `.page` section, in document order */
    const pages: array<bool>
    var currentPage: int
    var sharedReport: bool
    var selectedIssue: string
    var mapInitialized: bool
    /** `map`: None while null, otherwise the map's viewport */
    var view: Option<Viewport>
    var marker: Option<Marker>
    ghost var mapsCreated: nat
    /** `setTimeout` callbacks not yet run */
    var timers: seq<Timer>
    /** geocoding requests awaiting their answer */
    var lookups: seq<string>
    var addressInput: string
    var contactFormVisible: bool
    var referenceVisible: bool
    var referenceText: string
    var alerts: seq<Alert>

    ghost function State(): Session
      reads this, pages
    {
      Session(leafletLoaded, pages[..], currentPage, sharedReport, selectedIssue,
              mapInitialized, view, marker, mapsCreated, timers, lookups, addressInput,
              contactFormVisible, referenceVisible, referenceText, alerts)
    }

    ghost predicate Valid()
      reads this, pages
    {
      Inv(State())
    }

    /** Loading the script on a page with `pageCount` sections; it ends with
        `showPage(currentPage)`. */
    constructor (pageCount: nat, leaflet: bool)
      requires pageCount >= MinPages
      ensures Valid() && fresh(pages)
      ensures State() == Init(pageCount, leaflet)
    {
      leafletLoaded := leaflet;
      pages := new bool[pageCount];
      currentPage := 0;
      sharedReport := false;
      selectedIssue := "";
      mapInitialized := false;
      view := None;
      marker := None;
      mapsCreated := 0;
      timers := [];
      lookups := [];
      addressInput := "";
      contactFormVisible := false;
      referenceVisible := false;
      referenceText := "";
      alerts := [];
      new;
      ShowPage(currentPage);
      InitInv(pageCount, leaflet);
    }

    /** `showPage`: mark page `index` active and every other page inactive, then, on the
        location page, schedule the map creation or a size refresh. */
    method ShowPage(index: int)
      modifies this, pages
      ensures State() == WizardSpec.ShowPage(old(State()), index)
    {
      for i := 0 to pages.Length
        invariant forall j :: 0 <= j < i ==> pages[j] == (j == index)
        modifies pages
      {
        pages[i] := i == index;
      }
      assert pages[..] == Showing(pages.Length, index);
      if index == LocationPage {
        if !mapInitialized {
          timers := timers + [CreateMap];
        } else {
          timers := timers + [RefreshSize];
        }
      }
    }

    method NextPage()
      requires Valid()
      modifies this, pages
      ensures Valid() && State() == WizardSpec.NextPage(old(State()))
    {
      if currentPage < pages.Length - 1 {
        currentPage := currentPage + 1;
        ShowPage(currentPage);
      }
      NextPageMoves(old(State()));
    }

    method PrevPage()
      requires Valid()
      modifies this, pages
      ensures Valid() && State() == WizardSpec.PrevPage(old(State()))
    {
      if currentPage > 0 {
        currentPage := currentPage - 1;
        ShowPage(currentPage);
      }
      PrevPageMoves(old(State()));
    }

    method SelectIssue(issue: string)
      requires Valid()
      modifies this, pages
      ensures Valid() && State() == WizardSpec.SelectIssue(old(State()), issue)
    {
      selectedIssue := issue;
      NextPage();
    }

    /** `initMap`. Without the library it only logs; with an existing map it only asks
        for a size refresh, which changes no modelled state. */
    method InitMap()
      modifies this
      ensures State() == WizardSpec.InitMap(old(State()))
    {
      if !leafletLoaded {
        return;
      }
      if view.Some? {
        return;
      }
      view := Some(Viewport(DefaultCenter, DefaultZoom));
      marker := Some(Marker(DefaultCenter, DefaultLocation));
      mapsCreated := mapsCreated + 1;
    }

    /** The event loop runs pending callback `k`. */
    method FireTimer(k: nat)
      requires Valid() && k < |timers|
      modifies this
      ensures Valid() && State() == WizardSpec.FireTimer(old(State()), k)
    {
      var timer := timers[k];
      timers := RemoveAt(timers, k);
      match timer
      case CreateMap =>
        InitMap();
        mapInitialized := true;
      case RefreshSize =>
    }

    /** The click handler `initMap` registers on the map. */
    method MapClick(lat: string, lng: string)
      requires Valid()
      modifies this
      ensures Valid() && State() == WizardSpec.MapClick(old(State()), lat, lng)
    {
      if view.None? {
        return;
      }
      var at, popup := Point(lat, lng), Selected(lat, lng);
      if marker.Some? {
        marker := Some(marker.value.(at := at, popup := popup));
      } else {
        marker := Some(Marker(at, popup));
      }
      addressInput := lat + ", " + lng;
    }

    method TypeAddress(text: string)
      requires Valid()
      modifies this
      ensures Valid() && State() == WizardSpec.TypeAddress(old(State()), text)
    {
      addressInput := text;
    }

    /** Show the location page if the map was never initialised; if a map exists, set
        its view and move or create the marker. */
    method MoveTo(at: Point, popup: Popup)
      modifies this, pages
      ensures State() == WizardSpec.MoveTo(old(State()), at, popup)
    {
      if !mapInitialized {
        ShowPage(LocationPage);
      }
      if view.Some? {
        view := Some(Viewport(at, FoundZoom));
        if marker.Some? {
          marker := Some(marker.value.(at := at, popup := popup));
        } else {
          marker := Some(Marker(at, popup));
        }
      }
    }

    /** `findAddress` up to the `fetch`. */
    method FindAddress()
      requires Valid()
      modifies this, pages
      ensures Valid() && State() == WizardSpec.FindAddress(old(State()))
    {
      var address := CoordPattern.Trim(addressInput);
      if address == [] {
        alerts := alerts + [EnterAddress];
        return;
      }
      var coordMatch := CoordPattern.MatchCoordPair(address);
      if coordMatch.Some? {
        var (lat, lon) := coordMatch.value;
        MoveTo(Point(lat, lon), Coordinates(lat, lon));
        CoordinatesSkipGeocoder(old(State()), lat, lon);
        return;
      }
      lookups := lookups + [address];
    }

    /** `findAddress` after the `fetch` of pending request `k` settles. */
    method GeocodeReply(k: nat, reply: Reply)
      requires Valid() && k < |lookups|
      modifies this, pages
      ensures Valid() && State() == WizardSpec.GeocodeReply(old(State()), k, reply)
    {
      var query := lookups[k];
      lookups := RemoveAt(lookups, k);
      match reply
      case Failed =>
        alerts := alerts + [GeocodingError];
      case Places(results) =>
        if |results| == 0 {
          alerts := alerts + [AddressNotFound];
        } else {
          var first := results[0];
          var name := if first.displayName != "" then first.displayName else query;
          MoveTo(Point(first.lat, first.lon), Named(name));
        }
      ReplyOutcomes(old(State()), k, reply);
    }

    method ReportAnonymous()
      requires Valid()
      modifies this, pages
      ensures Valid() && State() == WizardSpec.ReportAnonymous(old(State()))
    {
      sharedReport := false;
      ShowPage(ConfirmationPage);
      referenceVisible := false;
      AnonymousHidesReference(old(State()));
    }

    method ShareDetails()
      requires Valid()
      modifies this
      ensures Valid() && State() == WizardSpec.ShareDetails(old(State()))
    {
      sharedReport := true;
      contactFormVisible := true;
    }

    /** `submitReport` with the values of the name and email fields. */
    method SubmitReport(name: string, email: string, draws: seq<nat>)
      requires Valid() && ReferenceCode.ValidDraws(draws)
      modifies this, pages
      ensures Valid() && State() == WizardSpec.SubmitReport(old(State()), name, email, draws)
    {
      if name != "" && email != "" {
        ShowPage(ConfirmationPage);
        if sharedReport {
          var ref := ReferenceCode.GenerateReference(draws);
          referenceText := ref;
          referenceVisible := true;
        } else {
          referenceVisible := false;
        }
        SubmitConfirms(old(State()), name, email, draws);
      } else {
        alerts := alerts + [FillNameAndEmail];
      }
    }
  }
}
