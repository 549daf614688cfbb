/**
 * The configuration page as an object: the browser's `localStorage`, the
 * marker's coordinates and the address element, updated in place by the
 * page's handlers.
 */
module ConfigEditor {
  import opened Wrappers
  import opened AddressBlock
  import opened ConfigStore

  class Editor {
    /** `localStorage`, keyed by the editor's keys. */
    var store: Store
    /** The browser's quota: whether it lets the store become the given map. */
    const accepts: Store -> bool
    /** `currentLat` and `currentLng`, as the text `setItem` stores for them. */
    var lat: string
    var lng: string
    /** The form as filled in when the page opened. */
    var shown: Config
    /** The address element. */
    var view: View

    /** Opening the page: the form and the address element are filled from the store (config.js:33-58). */
    constructor(initial: Store, quota: Store -> bool, startLat: string, startLng: string)
      ensures store == initial && accepts == quota && lat == startLat && lng == startLng
      ensures shown == Load(initial) && view == Stored(Load(initial).address)
    {
      store := initial;
      accepts := quota;
      lat := startLat;
      lng := startLng;
      shown := Load(initial);
      view := Stored(Load(initial).address);
    }

    /** `localStorage.setItem(key, value)`: stores the value, or throws and changes nothing when the quota refuses it. */
    method SetItem(k: Key, v: string) returns (ok: bool)
      modifies this
      ensures ok == accepts(old(store)[k := v])
      ensures store == if ok then old(store)[k := v] else old(store)
      ensures lat == old(lat) && lng == old(lng) && shown == old(shown) && view == old(view)
    {
      ok := accepts(store[k := v]);
      if ok {
        store := store[k := v];
      }
    }

    /** The `setItem` calls `ws` lists, in order, stopping at the first that throws. */
    method WriteAll(ws: seq<Write>) returns (ok: bool)
      modifies this
      ensures Attempt(store, ok) == Run(Attempt(old(store), true), ws, accepts)
      ensures lat == old(lat) && lng == old(lng) && shown == old(shown) && view == old(view)
    {
      ok := true;
      var i := 0;
      while i < |ws| && ok
        invariant 0 <= i <= |ws|
        invariant Run(Attempt(store, ok), ws[i..], accepts) == Run(Attempt(old(store), true), ws, accepts)
        invariant lat == old(lat) && lng == old(lng) && shown == old(shown) && view == old(view)
        decreases |ws| - i
      {
        assert ws[i..][0] == ws[i] && ws[i..][1..] == ws[i + 1..];
        ok := SetItem(ws[i].key, Text(ws[i].value));
        i := i + 1;
      }
      RunNeedsStart(Attempt(store, ok), ws[i..], accepts);
    }

    /**
     * The save handler (config.js:170-212): the field writes; if they went
     * through, the toggles, whose failure is swallowed, then the chosen
     * logos and the stamp. `completed` is whether the success alert is shown.
     */
    method Save(f: Form, stamp: string) returns (completed: bool)
      modifies this
      ensures Attempt(store, completed)
           == SaveOutcome(old(store), f, old(lat), old(lng), TextContent(old(view)), stamp, accepts)
      ensures lat == old(lat) && lng == old(lng) && shown == old(shown) && view == old(view)
    {
      var addressText := TextContent(view);
      var ok := WriteAll(ContactWrites(f));
      ghost var contacts := Attempt(store, ok);
      if ok {
        ok := WriteAll(ColourWrites(f));
      } else {
        RunNeedsStart(contacts, ColourWrites(f), accepts);
      }
      ghost var colours := Attempt(store, ok);
      if ok {
        ok := WriteAll(PlaceWrites(f, lat, lng, addressText));
      } else {
        RunNeedsStart(colours, PlaceWrites(f, lat, lng, addressText), accepts);
      }
      if ok {
        var _ := WriteAll(ToggleWrites(f));
        completed := WriteAll(FinalWrites(f, stamp));
      } else {
        completed := false;
      }
    }

    /**
     * `updateAddressDisplay` once the lookup has settled (config.js:88-127):
     * on failure the placeholder; otherwise the element is emptied and one
     * line is appended per non-empty field, in the order of the labels.
     */
    method UpdateAddressDisplay(outcome: Option<Response>)
      modifies this
      ensures view == Display(outcome)
      ensures store == old(store) && lat == old(lat) && lng == old(lng) && shown == old(shown)
    {
      match outcome {
        case None =>
          view := Unavailable;
        case Some(r) =>
          view := Lines([]);
          AppendFields(Candidates(r.address.GetOr(NoFields)));
      }
    }

    /** The `forEach` over the eight fields: a line is appended to the element for each truthy value, in order. */
    method AppendFields(fields: seq<Option<string>>)
      requires |fields| == |Labels| && view.Lines?
      modifies this
      ensures view == Lines(old(view.lines) + Collect(fields, 0))
      ensures store == old(store) && lat == old(lat) && lng == old(lng) && shown == old(shown)
    {
      ghost var start := view.lines;
      var i := 0;
      while i < |fields|
        invariant 0 <= i <= |fields| && view.Lines?
        invariant view.lines + Collect(fields, i) == start + Collect(fields, 0)
        invariant store == old(store) && lat == old(lat) && lng == old(lng) && shown == old(shown)
      {
        ghost var before := view.lines;
        CollectStep(fields, i, before);
        if Truthy(fields[i]) {
          view := Lines(view.lines + [Line(Labels[i], fields[i].value)]);
        }
        assert view.lines == before + LineAt(fields, i);
        i := i + 1;
      }
    }

    /**
     * The marker's `dragend` and the search's `showlocation` handlers
     * (config.js:143-157): the new coordinates are kept, then the address
     * element shows the lookup's outcome for them.
     */
    method MoveMarker(newLat: string, newLng: string, outcome: Option<Response>)
      modifies this
      ensures lat == newLat && lng == newLng && view == Display(outcome)
      ensures store == old(store) && shown == old(shown)
    {
      lat := newLat;
      lng := newLng;
      UpdateAddressDisplay(outcome);
    }
  }
}
