/**
 * The editor's settings as they live in `localStorage`: the keys, the
 * load-with-default rules, and the order and effect of the writes the save
 * button makes. `localStorage` is a map from the editor's keys to string values;
 * whether a `setItem` fits the browser's quota is the opaque policy
 * `accepts`, which sees the store the write would produce.
 */
module ConfigStore {
  import opened JsString

  type Store = map<Key, string>

  /** The `localStorage` keys the editor reads and writes. */
  datatype Key =
    | WhatsappNumber | PhoneNumber | InstagramLink | FacebookLink | EmailAddress
    | BgColor | BtnColor | TextColor | Lat | Lng | Address | WhatsappMessage
    | ShowWhatsapp | ShowTelefono | ShowInstagram | ShowFacebook | ShowEmail | ShowMap
    | LogoStore | LogoSearch | ConfigUpdate

  /** The key's name in `localStorage`. */
  function Name(k: Key): string {
    match k
    case WhatsappNumber => "whatsappNumber"
    case PhoneNumber => "phoneNumber"
    case InstagramLink => "instagramLink"
    case FacebookLink => "facebookLink"
    case EmailAddress => "emailAddress"
    case BgColor => "bgColor"
    case BtnColor => "btnColor"
    case TextColor => "textColor"
    case Lat => "lat"
    case Lng => "lng"
    case Address => "address"
    case WhatsappMessage => "whatsappMessage"
    case ShowWhatsapp => "showWhatsapp"
    case ShowTelefono => "showTelefono"
    case ShowInstagram => "showInstagram"
    case ShowFacebook => "showFacebook"
    case ShowEmail => "showEmail"
    case ShowMap => "showMap"
    case LogoStore => "logoStore"
    case LogoSearch => "logoSearch"
    case ConfigUpdate => "configUpdate"
  }

  const DefaultBgColor := "#ffffff"
  const DefaultBtnColor := "#28a745"
  const DefaultTextColor := "#000000"
  const DefaultMessage := "Hola, estoy interesado/a en sus productos. ¿Podrían darme más información?"
  const NoAddress := "Ubicación no definida"

  /** The values the editor shows after loading. */
  datatype Config = Config(
    whatsapp: string, phone: string, instagram: string, facebook: string, email: string,
    bgColor: string, btnColor: string, textColor: string,
    logoStore: string, logoSearch: string, address: string, whatsappMessage: string,
    showWhatsapp: bool, showTelefono: bool, showInstagram: bool,
    showFacebook: bool, showEmail: bool, showMap: bool)

  const Defaults: Config := Config(
    "", "", "", "", "", DefaultBgColor, DefaultBtnColor, DefaultTextColor,
    "", "", NoAddress, DefaultMessage, false, false, false, false, false, false)

  /** `localStorage.getItem(key) || fallback`: `null` and `''` both give the fallback. */
  function GetOr(store: Store, key: Key, fallback: string): string {
    if key in store && store[key] != "" then store[key] else fallback
  }

  /** `localStorage.getItem(key) === 'true'`. */
  predicate IsTrue(store: Store, key: Key) {
    key in store && store[key] == "true"
  }

  /** The load block run when the editor opens. */
  function Load(store: Store): Config {
    Config(
      GetOr(store, WhatsappNumber, ""), GetOr(store, PhoneNumber, ""),
      GetOr(store, InstagramLink, ""), GetOr(store, FacebookLink, ""),
      GetOr(store, EmailAddress, ""),
      GetOr(store, BgColor, DefaultBgColor), GetOr(store, BtnColor, DefaultBtnColor),
      GetOr(store, TextColor, DefaultTextColor),
      GetOr(store, LogoStore, ""), GetOr(store, LogoSearch, ""),
      GetOr(store, Address, NoAddress), GetOr(store, WhatsappMessage, DefaultMessage),
      IsTrue(store, ShowWhatsapp), IsTrue(store, ShowTelefono),
      IsTrue(store, ShowInstagram), IsTrue(store, ShowFacebook),
      IsTrue(store, ShowEmail), IsTrue(store, ShowMap))
  }

  /** A logo file input: no file, or a chosen file standing for the object URL made from it. */
  datatype LogoChoice = NoFile | Chosen(url: string)

  /** What the form controls hold when the save button is clicked. */
  datatype Form = Form(
    whatsapp: string, phone: string, instagram: string, facebook: string, email: string,
    bgColor: string, btnColor: string, textColor: string, whatsappMessage: string,
    showWhatsapp: bool, showTelefono: bool, showInstagram: bool,
    showFacebook: bool, showEmail: bool, showMap: bool,
    logoStore: LogoChoice, logoSearch: LogoChoice)

  /** `String(b)`, the text `setItem` stores for a boolean. */
  function BoolText(b: bool): string {
    if b then "true" else "false"
  }

  /** The URL the save writes for a logo, if any: `uploadImage`'s result when it is truthy. */
  predicate WritesLogo(c: LogoChoice) {
    c.Chosen? && c.url != ""
  }

  /** The store so far and whether every write so far went through. */
  datatype Attempt = Attempt(store: Store, completed: bool)

  /** What a `setItem` call is given: a control's text as it stands, its text trimmed, or a checkbox's state. */
  datatype Value = AsTyped(text: string) | Trimmed(raw: string) | Flag(on: bool)

  /** The string `setItem` stores for a value: `String(checked)` for a checkbox. */
  function Text(v: Value): string {
    match v
    case AsTyped(t) => t
    case Trimmed(t) => Trim(t)
    case Flag(b) => BoolText(b)
  }

  /** One `setItem(key, value)` call. */
  datatype Write = Write(key: Key, value: Value)

  /** One `setItem` inside a try block: skipped once a write has thrown; throws, changing nothing, when refused. */
  function Step(a: Attempt, w: Write, accepts: Store -> bool): (b: Attempt)
    ensures b.completed ==> a.completed && w.key in b.store && b.store[w.key] == Text(w.value)
    ensures forall k :: k != w.key ==> SameAt(b.store, a.store, k)
    ensures !b.completed ==> b.store == a.store
  {
    var done := a.completed && accepts(a.store[w.key := Text(w.value)]);
    Attempt(if done then a.store[w.key := Text(w.value)] else a.store, done)
  }

  /** `setItem` calls one after the other in the same try block. */
  function Run(a: Attempt, ws: seq<Write>, accepts: Store -> bool): Attempt
    decreases |ws|
  {
    if ws == [] then a else Run(Step(a, ws[0], accepts), ws[1..], accepts)
  }

  /** `a` and `b` hold the same thing under `k`. */
  ghost predicate SameAt(a: Store, b: Store, k: Key) {
    (k in a <==> k in b) && (k in a ==> a[k] == b[k])
  }

  /** No key is written twice. */
  ghost predicate DistinctKeys(ws: seq<Write>) {
    forall i, j :: 0 <= i < j < |ws| ==> ws[i].key != ws[j].key
  }

  /** The keys `ws` writes. */
  function KeysOf(ws: seq<Write>): set<Key> {
    set i | 0 <= i < |ws| :: ws[i].key
  }

  /** The contact writes, trimmed (config.js:175-179). */
  function ContactWrites(f: Form): seq<Write> {
    [ Write(WhatsappNumber, Trimmed(f.whatsapp)), Write(PhoneNumber, Trimmed(f.phone)),
      Write(InstagramLink, Trimmed(f.instagram)), Write(FacebookLink, Trimmed(f.facebook)),
      Write(EmailAddress, Trimmed(f.email)) ]
  }

  /** The colour writes, as typed (config.js:180-182). */
  function ColourWrites(f: Form): seq<Write> {
    [ Write(BgColor, AsTyped(f.bgColor)), Write(BtnColor, AsTyped(f.btnColor)), Write(TextColor, AsTyped(f.textColor)) ]
  }

  /** The marker's coordinates, the shown address and the message, both trimmed (config.js:183-188). */
  function PlaceWrites(f: Form, lat: string, lng: string, addressText: string): seq<Write> {
    [ Write(Lat, AsTyped(lat)), Write(Lng, AsTyped(lng)), Write(Address, Trimmed(addressText)),
      Write(WhatsappMessage, Trimmed(f.whatsappMessage)) ]
  }

  /** The inner try block (config.js:191-200): each toggle as `String(checked)`. */
  function ToggleWrites(f: Form): seq<Write> {
    [ Write(ShowWhatsapp, Flag(f.showWhatsapp)), Write(ShowTelefono, Flag(f.showTelefono)),
      Write(ShowInstagram, Flag(f.showInstagram)), Write(ShowFacebook, Flag(f.showFacebook)),
      Write(ShowEmail, Flag(f.showEmail)), Write(ShowMap, Flag(f.showMap)) ]
  }

  /** The logos whose upload gave a URL (config.js:202-203). */
  function LogoWrites(f: Form): seq<Write> {
    (if WritesLogo(f.logoStore) then [Write(LogoStore, AsTyped(f.logoStore.url))] else [])
    + (if WritesLogo(f.logoSearch) then [Write(LogoSearch, AsTyped(f.logoSearch.url))] else [])
  }

  /** The logo writes, then the `configUpdate` stamp (config.js:202-205). */
  function FinalWrites(f: Form, stamp: string): seq<Write> {
    LogoWrites(f) + [Write(ConfigUpdate, AsTyped(stamp))]
  }

  /** The outer try block's field writes (config.js:175-188), which must all go through for the save to go on. */
  function SaveFields(store: Store, f: Form, lat: string, lng: string, addressText: string,
                      accepts: Store -> bool): Attempt
  {
    var contacts := Run(Attempt(store, true), ContactWrites(f), accepts);
    var colours := Run(contacts, ColourWrites(f), accepts);
    Run(colours, PlaceWrites(f, lat, lng, addressText), accepts)
  }

  /** The toggle block: a refusal ends it but is swallowed, so only the store is passed on. */
  function SaveToggles(store: Store, f: Form, accepts: Store -> bool): Store {
    Run(Attempt(store, true), ToggleWrites(f), accepts).store
  }

  /**
   * The save handler: the field writes; if they all went through, the
   * toggles, then the logos and the stamp. `completed` tells which alert
   * the user sees.
   */
  function SaveOutcome(store: Store, f: Form, lat: string, lng: string, addressText: string,
                       stamp: string, accepts: Store -> bool): Attempt
  {
    var main := SaveFields(store, f, lat, lng, addressText, accepts);
    if main.completed then Run(Attempt(SaveToggles(main.store, f, accepts), true), FinalWrites(f, stamp), accepts)
    else main
  }

  /** A quota that never refuses a write. */
  ghost predicate Unlimited(accepts: Store -> bool) {
    forall s :: accepts(s)
  }

  /** Whether a save of form `f` writes key `k`: every key except a logo for which no file was chosen. */
  predicate SaveWrites(f: Form, k: Key) {
    match k
    case LogoStore => WritesLogo(f.logoStore)
    case LogoSearch => WritesLogo(f.logoSearch)
    case _ => true
  }

  // ----- properties of a run of writes -----

  /** A run touches only the keys it writes. */
  lemma {:induction false} RunFrame(a: Attempt, ws: seq<Write>, accepts: Store -> bool, k: Key)
    requires k !in KeysOf(ws)
    ensures SameAt(Run(a, ws, accepts).store, a.store, k)
    decreases |ws|
  {
    if ws != [] {
      assert k != ws[0].key by { assert ws[0].key in KeysOf(ws); }
      assert KeysOf(ws[1..]) <= KeysOf(ws) by {
        forall i | 0 <= i < |ws| - 1 ensures ws[1..][i].key in KeysOf(ws) {
          assert ws[1..][i] == ws[i + 1];
        }
      }
      RunFrame(Step(a, ws[0], accepts), ws[1..], accepts, k);
    }
  }

  /** A run completes only if it started on a completed attempt; one started after a failure does nothing. */
  lemma {:induction false} RunNeedsStart(a: Attempt, ws: seq<Write>, accepts: Store -> bool)
    ensures Run(a, ws, accepts).completed ==> a.completed
    ensures !a.completed ==> Run(a, ws, accepts) == a
    decreases |ws|
  {
    if ws != [] {
      RunNeedsStart(Step(a, ws[0], accepts), ws[1..], accepts);
    }
  }

  /** With room for every write, a run started on a completed attempt completes. */
  lemma {:induction false} RunCompletes(a: Attempt, ws: seq<Write>, accepts: Store -> bool)
    requires Unlimited(accepts) && a.completed
    ensures Run(a, ws, accepts).completed
    decreases |ws|
  {
    if ws != [] {
      RunCompletes(Step(a, ws[0], accepts), ws[1..], accepts);
    }
  }

  /** A completed run holds the value of every write no later write overrides. */
  lemma {:induction false} RunStores(a: Attempt, ws: seq<Write>, accepts: Store -> bool, i: nat)
    requires i < |ws| && Run(a, ws, accepts).completed
    requires forall j :: i < j < |ws| ==> ws[j].key != ws[i].key
    ensures ws[i].key in Run(a, ws, accepts).store && Run(a, ws, accepts).store[ws[i].key] == Text(ws[i].value)
    decreases |ws|
  {
    var b := Step(a, ws[0], accepts);
    if i == 0 {
      RunNeedsStart(b, ws[1..], accepts);
      assert ws[0].key !in KeysOf(ws[1..]);
      RunFrame(b, ws[1..], accepts, ws[0].key);
    } else {
      RunStores(b, ws[1..], accepts, i - 1);
    }
  }

  /** A completed run with no repeated key holds every value it wrote. */
  lemma RunStoresAll(a: Attempt, ws: seq<Write>, accepts: Store -> bool)
    requires DistinctKeys(ws) && Run(a, ws, accepts).completed
    ensures forall w :: w in ws ==> w.key in Run(a, ws, accepts).store && Run(a, ws, accepts).store[w.key] == Text(w.value)
  {
    forall w | w in ws
      ensures w.key in Run(a, ws, accepts).store && Run(a, ws, accepts).store[w.key] == Text(w.value)
    {
      var i :| 0 <= i < |ws| && ws[i] == w;
      RunStores(a, ws, accepts, i);
    }
  }

  // ----- properties of the save -----

  /** Opening the editor on a store holding nothing but empty strings shows every default. */
  lemma LoadBlank(store: Store)
    requires forall k :: k in store ==> store[k] == ""
    ensures Load(store) == Defaults
  {
  }

  /** The contact writes write no key twice. */
  lemma ContactDistinct(f: Form)
    ensures DistinctKeys(ContactWrites(f))
  {
  }

  /** The colour writes write no key twice. */
  lemma ColourDistinct(f: Form)
    ensures DistinctKeys(ColourWrites(f))
  {
  }

  /** The place writes write no key twice. */
  lemma PlaceDistinct(f: Form, lat: string, lng: string, addressText: string)
    ensures DistinctKeys(PlaceWrites(f, lat, lng, addressText))
  {
  }

  /** The toggle block writes no key twice. */
  lemma ToggleDistinct(f: Form)
    ensures DistinctKeys(ToggleWrites(f))
  {
  }

  /** The last writes are the chosen logos and the stamp, each once. */
  lemma FinalWriteKeys(f: Form, stamp: string)
    ensures KeysOf(LogoWrites(f)) ==
      (if WritesLogo(f.logoStore) then {LogoStore} else {}) + (if WritesLogo(f.logoSearch) then {LogoSearch} else {})
    ensures KeysOf(FinalWrites(f, stamp)) == KeysOf(LogoWrites(f)) + {ConfigUpdate}
    ensures DistinctKeys(FinalWrites(f, stamp))
  {
    var t := FinalWrites(f, stamp);
    var l := LogoWrites(f);
    assert t[|t| - 1].key in KeysOf(t);
    if WritesLogo(f.logoStore) {
      assert l[0].key in KeysOf(l) && t[0].key in KeysOf(t);
    }
    if WritesLogo(f.logoSearch) {
      assert l[|l| - 1].key in KeysOf(l) && t[|t| - 2].key in KeysOf(t);
    }
  }

  /** A write is listed under its key. */
  lemma KeyOfWrite(ws: seq<Write>, w: Write)
    requires w in ws
    ensures w.key in KeysOf(ws)
  {
    var i :| 0 <= i < |ws| && ws[i] == w;
  }

  /** A value a run does not overwrite survives it. */
  lemma RunKeeps(a: Attempt, ws: seq<Write>, accepts: Store -> bool, w: Write)
    requires w.key !in KeysOf(ws) && w.key in a.store && a.store[w.key] == Text(w.value)
    ensures w.key in Run(a, ws, accepts).store && Run(a, ws, accepts).store[w.key] == Text(w.value)
  {
    RunFrame(a, ws, accepts, w.key);
  }

  /** Three blocks of writes with no repeated and no shared key, run one after the other, store all their values when they complete. */
  lemma RunThreeStores(a: Attempt, c: seq<Write>, o: seq<Write>, p: seq<Write>, accepts: Store -> bool)
    requires DistinctKeys(c) && DistinctKeys(o) && DistinctKeys(p)
    requires KeysOf(c) !! KeysOf(o) && KeysOf(c) !! KeysOf(p) && KeysOf(o) !! KeysOf(p)
    requires Run(Run(Run(a, c, accepts), o, accepts), p, accepts).completed
    ensures var r := Run(Run(Run(a, c, accepts), o, accepts), p, accepts).store;
      && (forall w :: w in c ==> w.key in r && r[w.key] == Text(w.value))
      && (forall w :: w in o ==> w.key in r && r[w.key] == Text(w.value))
      && (forall w :: w in p ==> w.key in r && r[w.key] == Text(w.value))
  {
    var first := Run(a, c, accepts);
    var second := Run(first, o, accepts);
    RunNeedsStart(second, p, accepts);
    RunNeedsStart(first, o, accepts);
    RunStoresAll(second, p, accepts);
    RunStoresAll(first, o, accepts);
    RunStoresAll(a, c, accepts);
    forall w | w in c
      ensures w.key in Run(second, p, accepts).store && Run(second, p, accepts).store[w.key] == Text(w.value)
    {
      KeyOfWrite(c, w);
      RunKeeps(first, o, accepts, w);
      RunKeeps(second, p, accepts, w);
    }
    forall w | w in o
      ensures w.key in Run(second, p, accepts).store && Run(second, p, accepts).store[w.key] == Text(w.value)
    {
      KeyOfWrite(o, w);
      RunKeeps(second, p, accepts, w);
    }
  }

  /** The toggle block, then a last block of writes that completes: values of neither block's keys survive, and the last block's values are stored. */
  lemma TailKeepsAndStores(s: Store, t: seq<Write>, z: seq<Write>, keep: seq<Write>, accepts: Store -> bool)
    requires DistinctKeys(z) && KeysOf(keep) !! KeysOf(t) && KeysOf(keep) !! KeysOf(z)
    requires forall w :: w in keep ==> w.key in s && s[w.key] == Text(w.value)
    requires Run(Attempt(Run(Attempt(s, true), t, accepts).store, true), z, accepts).completed
    ensures var r := Run(Attempt(Run(Attempt(s, true), t, accepts).store, true), z, accepts).store;
      && (forall w :: w in keep ==> w.key in r && r[w.key] == Text(w.value))
      && (forall w :: w in z ==> w.key in r && r[w.key] == Text(w.value))
  {
    var toggled := Attempt(Run(Attempt(s, true), t, accepts).store, true);
    RunStoresAll(toggled, z, accepts);
    forall w | w in keep
      ensures w.key in Run(toggled, z, accepts).store && Run(toggled, z, accepts).store[w.key] == Text(w.value)
    {
      KeyOfWrite(keep, w);
      RunKeeps(Attempt(s, true), t, accepts, w);
      RunKeeps(toggled, z, accepts, w);
    }
  }

  /** The toggle block, then a last block of writes that fails: the key of its last write keeps its value when neither block writes it before. */
  lemma TailFailureFrame(s: Store, t: seq<Write>, xs: seq<Write>, w: Write, accepts: Store -> bool)
    requires w.key !in KeysOf(t) && w.key !in KeysOf(xs)
    requires !Run(Attempt(Run(Attempt(s, true), t, accepts).store, true), xs + [w], accepts).completed
    ensures SameAt(Run(Attempt(Run(Attempt(s, true), t, accepts).store, true), xs + [w], accepts).store, s, w.key)
  {
    RunFrame(Attempt(s, true), t, accepts, w.key);
    RunLastFrame(Attempt(Run(Attempt(s, true), t, accepts).store, true), xs, w, accepts);
  }

  /** A run whose last write is refused, or that fails before it, leaves that write's key as it was, when no earlier write touches it. */
  lemma RunLastFrame(a: Attempt, xs: seq<Write>, w: Write, accepts: Store -> bool)
    requires w.key !in KeysOf(xs)
    requires !Run(a, xs + [w], accepts).completed
    ensures SameAt(Run(a, xs + [w], accepts).store, a.store, w.key)
  {
    RunSplit(a, xs, [w], accepts);
    RunFrame(a, xs, accepts, w.key);
    var before := Run(a, xs, accepts);
    assert [w][1..] == [];
    assert Run(before, [w], accepts) == Step(before, w, accepts);
  }

  /** Writes made one after the other run as the first writes, then the rest. */
  lemma {:induction false} RunSplit(a: Attempt, xs: seq<Write>, ys: seq<Write>, accepts: Store -> bool)
    ensures Run(a, xs + ys, accepts) == Run(Run(a, xs, accepts), ys, accepts)
    decreases |xs|
  {
    if xs != [] {
      assert (xs + ys)[0] == xs[0] && (xs + ys)[1..] == xs[1..] + ys;
      RunSplit(Step(a, xs[0], accepts), xs[1..], ys, accepts);
    } else {
      assert xs + ys == ys;
    }
  }

  /** The field writes touch only their own keys. */
  lemma FieldsFrame(store: Store, f: Form, lat: string, lng: string, addressText: string,
                    accepts: Store -> bool, k: Key)
    requires Block(k) > 2
    ensures SameAt(SaveFields(store, f, lat, lng, addressText, accepts).store, store, k)
  {
    WritesInBlocks(f, lat, lng, addressText, "");
    KeysInBlock(ContactWrites(f), 0);
    KeysInBlock(ColourWrites(f), 1);
    KeysInBlock(PlaceWrites(f, lat, lng, addressText), 2);
    var contacts := Run(Attempt(store, true), ContactWrites(f), accepts);
    var colours := Run(contacts, ColourWrites(f), accepts);
    RunFrame(Attempt(store, true), ContactWrites(f), accepts, k);
    RunFrame(contacts, ColourWrites(f), accepts, k);
    RunFrame(colours, PlaceWrites(f, lat, lng, addressText), accepts, k);
  }

  /** When the field writes all go through, the store holds every value they wrote. */
  lemma FieldsStored(store: Store, f: Form, lat: string, lng: string, addressText: string,
                     accepts: Store -> bool)
    requires SaveFields(store, f, lat, lng, addressText, accepts).completed
    ensures var r := SaveFields(store, f, lat, lng, addressText, accepts).store;
      && (forall w :: w in ContactWrites(f) ==> w.key in r && r[w.key] == Text(w.value))
      && (forall w :: w in ColourWrites(f) ==> w.key in r && r[w.key] == Text(w.value))
      && (forall w :: w in PlaceWrites(f, lat, lng, addressText) ==> w.key in r && r[w.key] == Text(w.value))
  {
    FieldBlocksApart(f, lat, lng, addressText);
    RunThreeStores(Attempt(store, true), ContactWrites(f), ColourWrites(f), PlaceWrites(f, lat, lng, addressText), accepts);
  }

  /** The three blocks of field writes repeat no key and share none. */
  lemma FieldBlocksApart(f: Form, lat: string, lng: string, addressText: string)
    ensures DistinctKeys(ContactWrites(f)) && DistinctKeys(ColourWrites(f))
    ensures DistinctKeys(PlaceWrites(f, lat, lng, addressText))
    ensures KeysOf(ContactWrites(f)) !! KeysOf(ColourWrites(f))
    ensures KeysOf(ContactWrites(f)) !! KeysOf(PlaceWrites(f, lat, lng, addressText))
    ensures KeysOf(ColourWrites(f)) !! KeysOf(PlaceWrites(f, lat, lng, addressText))
  {
    WritesInBlocks(f, lat, lng, addressText, "");
    BlocksApart(ContactWrites(f), 0, ColourWrites(f), 1);
    BlocksApart(ContactWrites(f), 0, PlaceWrites(f, lat, lng, addressText), 2);
    BlocksApart(ColourWrites(f), 1, PlaceWrites(f, lat, lng, addressText), 2);
    ContactDistinct(f);
    ColourDistinct(f);
    PlaceDistinct(f, lat, lng, addressText);
  }

  /** With room for every write, the field writes all go through. */
  lemma FieldsComplete(store: Store, f: Form, lat: string, lng: string, addressText: string,
                       accepts: Store -> bool)
    requires Unlimited(accepts)
    ensures SaveFields(store, f, lat, lng, addressText, accepts).completed
  {
    var contacts := Run(Attempt(store, true), ContactWrites(f), accepts);
    var colours := Run(contacts, ColourWrites(f), accepts);
    RunCompletes(Attempt(store, true), ContactWrites(f), accepts);
    RunCompletes(contacts, ColourWrites(f), accepts);
    RunCompletes(colours, PlaceWrites(f, lat, lng, addressText), accepts);
  }

  /** With room for every write, the toggle block stores every toggle as `"true"` or `"false"`. */
  lemma TogglesAllWritten(store: Store, f: Form, accepts: Store -> bool)
    requires Unlimited(accepts)
    ensures forall w :: w in ToggleWrites(f) ==>
      w.key in SaveToggles(store, f, accepts) && SaveToggles(store, f, accepts)[w.key] == Text(w.value)
  {
    ToggleDistinct(f);
    RunCompletes(Attempt(store, true), ToggleWrites(f), accepts);
    RunStoresAll(Attempt(store, true), ToggleWrites(f), accepts);
  }

  /** A save, whether it succeeds or not, changes only the keys it writes; a logo key without a chosen file keeps its value. */
  lemma SaveFrame(store: Store, f: Form, lat: string, lng: string, addressText: string,
                  stamp: string, accepts: Store -> bool, k: Key)
    requires !SaveWrites(f, k)
    ensures SameAt(SaveOutcome(store, f, lat, lng, addressText, stamp, accepts).store, store, k)
  {
    var main := SaveFields(store, f, lat, lng, addressText, accepts);
    UnwrittenKey(f, stamp, k);
    FieldsFrame(store, f, lat, lng, addressText, accepts, k);
    if main.completed {
      RunFrame(Attempt(main.store, true), ToggleWrites(f), accepts, k);
      RunFrame(Attempt(SaveToggles(main.store, f, accepts), true), FinalWrites(f, stamp), accepts, k);
    }
  }

  /** A key a save does not write is in no block of its writes. */
  lemma UnwrittenKey(f: Form, stamp: string, k: Key)
    requires !SaveWrites(f, k)
    ensures Block(k) > 2 && k !in KeysOf(ToggleWrites(f)) && k !in KeysOf(FinalWrites(f, stamp))
  {
    ToggleBlock(f);
    KeysInBlock(ToggleWrites(f), 3);
    FinalWriteKeys(f, stamp);
  }

  /** No write before the stamp touches `configUpdate`. */
  lemma StampWrittenOnce(f: Form)
    ensures ConfigUpdate !in KeysOf(ToggleWrites(f)) && ConfigUpdate !in KeysOf(LogoWrites(f))
  {
    ToggleBlock(f);
    KeysInBlock(ToggleWrites(f), 3);
    FinalWriteKeys(f, "");
  }

  /** Which part of the save handler writes `k`: contacts, colours, place, toggles, or logos and stamp. */
  function Block(k: Key): nat {
    match k
    case WhatsappNumber | PhoneNumber | InstagramLink | FacebookLink | EmailAddress => 0
    case BgColor | BtnColor | TextColor => 1
    case Lat | Lng | Address | WhatsappMessage => 2
    case ShowWhatsapp | ShowTelefono | ShowInstagram | ShowFacebook | ShowEmail | ShowMap => 3
    case LogoStore | LogoSearch | ConfigUpdate => 4
  }

  /** Every write of `ws` belongs to part `b`. */
  ghost predicate InBlock(ws: seq<Write>, b: nat) {
    forall w :: w in ws ==> Block(w.key) == b
  }

  /** The keys of writes that all belong to one part belong to it. */
  lemma KeysInBlock(ws: seq<Write>, b: nat)
    requires InBlock(ws, b)
    ensures forall k :: k in KeysOf(ws) ==> Block(k) == b
  {
    forall k | k in KeysOf(ws)
      ensures Block(k) == b
    {
      var i :| 0 <= i < |ws| && ws[i].key == k;
      assert ws[i] in ws;
    }
  }

  /** Writes of two different parts share no key. */
  lemma BlocksApart(xs: seq<Write>, b1: nat, ys: seq<Write>, b2: nat)
    requires InBlock(xs, b1) && InBlock(ys, b2) && b1 != b2
    ensures KeysOf(xs) !! KeysOf(ys)
  {
    KeysInBlock(xs, b1);
    KeysInBlock(ys, b2);
  }

  /** Each write list of the save handler belongs to its own part. */
  lemma WritesInBlocks(f: Form, lat: string, lng: string, addressText: string, stamp: string)
    ensures InBlock(ContactWrites(f), 0) && InBlock(ColourWrites(f), 1)
    ensures InBlock(PlaceWrites(f, lat, lng, addressText), 2) && InBlock(ToggleWrites(f), 3)
    ensures InBlock(FinalWrites(f, stamp), 4)
  {
    ContactBlock(f);
    ColourBlock(f);
    PlaceBlock(f, lat, lng, addressText);
    ToggleBlock(f);
    FinalBlock(f, stamp);
  }

  lemma ContactBlock(f: Form)
    ensures InBlock(ContactWrites(f), 0)
  {
  }

  lemma ColourBlock(f: Form)
    ensures InBlock(ColourWrites(f), 1)
  {
  }

  lemma PlaceBlock(f: Form, lat: string, lng: string, addressText: string)
    ensures InBlock(PlaceWrites(f, lat, lng, addressText), 2)
  {
  }

  lemma ToggleBlock(f: Form)
    ensures InBlock(ToggleWrites(f), 3)
  {
  }

  lemma FinalBlock(f: Form, stamp: string)
    ensures InBlock(FinalWrites(f, stamp), 4)
  {
  }

  /** Neither the toggles nor the last writes touch a field key. */
  lemma FieldsApart(f: Form, lat: string, lng: string, addressText: string, stamp: string)
    ensures KeysOf(ContactWrites(f)) !! KeysOf(ToggleWrites(f))
    ensures KeysOf(ContactWrites(f)) !! KeysOf(FinalWrites(f, stamp))
    ensures KeysOf(ColourWrites(f)) !! KeysOf(ToggleWrites(f))
    ensures KeysOf(ColourWrites(f)) !! KeysOf(FinalWrites(f, stamp))
    ensures KeysOf(PlaceWrites(f, lat, lng, addressText)) !! KeysOf(ToggleWrites(f))
    ensures KeysOf(PlaceWrites(f, lat, lng, addressText)) !! KeysOf(FinalWrites(f, stamp))
  {
    WritesInBlocks(f, lat, lng, addressText, stamp);
    BlocksApart(ContactWrites(f), 0, ToggleWrites(f), 3);
    BlocksApart(ContactWrites(f), 0, FinalWrites(f, stamp), 4);
    BlocksApart(ColourWrites(f), 1, ToggleWrites(f), 3);
    BlocksApart(ColourWrites(f), 1, FinalWrites(f, stamp), 4);
    BlocksApart(PlaceWrites(f, lat, lng, addressText), 2, ToggleWrites(f), 3);
    BlocksApart(PlaceWrites(f, lat, lng, addressText), 2, FinalWrites(f, stamp), 4);
  }

  /** The last writes do not touch a toggle, and repeat no key. */
  lemma TogglesApart(f: Form, stamp: string)
    ensures KeysOf(ToggleWrites(f)) !! KeysOf(FinalWrites(f, stamp))
    ensures DistinctKeys(ToggleWrites(f)) && DistinctKeys(FinalWrites(f, stamp))
  {
    WritesInBlocks(f, "", "", "", stamp);
    BlocksApart(ToggleWrites(f), 3, FinalWrites(f, stamp), 4);
    ToggleDistinct(f);
    FinalWriteKeys(f, stamp);
  }

  /** When the rest of the save fails after the field writes, the stamp keeps its old value. */
  lemma TailFailureKeepsStamp(s: Store, f: Form, stamp: string, accepts: Store -> bool)
    requires !Run(Attempt(SaveToggles(s, f, accepts), true), FinalWrites(f, stamp), accepts).completed
    ensures SameAt(Run(Attempt(SaveToggles(s, f, accepts), true), FinalWrites(f, stamp), accepts).store, s, ConfigUpdate)
  {
    StampWrittenOnce(f);
    TailFailureFrame(s, ToggleWrites(f), LogoWrites(f), Write(ConfigUpdate, AsTyped(stamp)), accepts);
  }

  /** When the rest of the save completes, a block of values it does not overwrite survives, and its own values are stored. */
  lemma TailKeepsBlock(s: Store, f: Form, stamp: string, ws: seq<Write>, accepts: Store -> bool)
    requires KeysOf(ws) !! KeysOf(ToggleWrites(f)) && KeysOf(ws) !! KeysOf(FinalWrites(f, stamp))
    requires forall w :: w in ws ==> w.key in s && s[w.key] == Text(w.value)
    requires Run(Attempt(SaveToggles(s, f, accepts), true), FinalWrites(f, stamp), accepts).completed
    ensures var r := Run(Attempt(SaveToggles(s, f, accepts), true), FinalWrites(f, stamp), accepts).store;
      && (forall w :: w in ws ==> w.key in r && r[w.key] == Text(w.value))
      && (forall w :: w in FinalWrites(f, stamp) ==> w.key in r && r[w.key] == Text(w.value))
  {
    TogglesApart(f, stamp);
    TailKeepsAndStores(s, ToggleWrites(f), FinalWrites(f, stamp), ws, accepts);
  }

  /** When the rest of the save completes, it keeps every field value and stores the logos and the stamp. */
  lemma TailKeepsFields(s: Store, f: Form, lat: string, lng: string, addressText: string,
                        stamp: string, accepts: Store -> bool)
    requires forall w :: w in ContactWrites(f) ==> w.key in s && s[w.key] == Text(w.value)
    requires forall w :: w in ColourWrites(f) ==> w.key in s && s[w.key] == Text(w.value)
    requires forall w :: w in PlaceWrites(f, lat, lng, addressText) ==> w.key in s && s[w.key] == Text(w.value)
    requires Run(Attempt(SaveToggles(s, f, accepts), true), FinalWrites(f, stamp), accepts).completed
    ensures var r := Run(Attempt(SaveToggles(s, f, accepts), true), FinalWrites(f, stamp), accepts).store;
      && (forall w :: w in ContactWrites(f) ==> w.key in r && r[w.key] == Text(w.value))
      && (forall w :: w in ColourWrites(f) ==> w.key in r && r[w.key] == Text(w.value))
      && (forall w :: w in PlaceWrites(f, lat, lng, addressText) ==> w.key in r && r[w.key] == Text(w.value))
      && (forall w :: w in FinalWrites(f, stamp) ==> w.key in r && r[w.key] == Text(w.value))
  {
    FieldsApart(f, lat, lng, addressText, stamp);
    TailKeepsBlock(s, f, stamp, ContactWrites(f), accepts);
    TailKeepsBlock(s, f, stamp, ColourWrites(f), accepts);
    TailKeepsBlock(s, f, stamp, PlaceWrites(f, lat, lng, addressText), accepts);
  }

  /** With room for every write, the rest of the save completes and leaves every toggle as the toggle block wrote it. */
  lemma TailUnlimited(s: Store, f: Form, stamp: string, accepts: Store -> bool)
    requires Unlimited(accepts)
    ensures var r := Run(Attempt(SaveToggles(s, f, accepts), true), FinalWrites(f, stamp), accepts);
      && r.completed
      && forall w :: w in ToggleWrites(f) ==> w.key in r.store && r.store[w.key] == Text(w.value)
  {
    TogglesApart(f, stamp);
    TogglesAllWritten(s, f, accepts);
    var last := Attempt(SaveToggles(s, f, accepts), true);
    RunCompletes(last, FinalWrites(f, stamp), accepts);
    forall w | w in ToggleWrites(f)
      ensures w.key in Run(last, FinalWrites(f, stamp), accepts).store
           && Run(last, FinalWrites(f, stamp), accepts).store[w.key] == Text(w.value)
    {
      KeyOfWrite(ToggleWrites(f), w);
      RunKeeps(last, FinalWrites(f, stamp), accepts, w);
    }
  }

  /** A save that fails never stamps `configUpdate`, so other views are not told of it. */
  lemma FailedSaveDoesNotNotify(store: Store, f: Form, lat: string, lng: string, addressText: string,
                                stamp: string, accepts: Store -> bool)
    requires !SaveOutcome(store, f, lat, lng, addressText, stamp, accepts).completed
    ensures SameAt(SaveOutcome(store, f, lat, lng, addressText, stamp, accepts).store, store, ConfigUpdate)
  {
    var main := SaveFields(store, f, lat, lng, addressText, accepts);
    FieldsFrame(store, f, lat, lng, addressText, accepts, ConfigUpdate);
    if main.completed {
      TailFailureKeepsStamp(main.store, f, stamp, accepts);
    }
  }

  /**
   * A save reported as done has stored every field, colour, coordinate, the
   * address, the message, every chosen logo and the stamp, whatever the
   * quota; the toggles are not promised, since their failures are swallowed.
   */
  lemma CompletedSaveStoresFields(store: Store, f: Form, lat: string, lng: string, addressText: string,
                                  stamp: string, accepts: Store -> bool)
    requires SaveOutcome(store, f, lat, lng, addressText, stamp, accepts).completed
    ensures var r := SaveOutcome(store, f, lat, lng, addressText, stamp, accepts).store;
      && Holds(r, ContactWrites(f)) && Holds(r, ColourWrites(f))
      && Holds(r, PlaceWrites(f, lat, lng, addressText)) && Holds(r, FinalWrites(f, stamp))
  {
    var main := SaveFields(store, f, lat, lng, addressText, accepts);
    assert main.completed;
    FieldsStored(store, f, lat, lng, addressText, accepts);
    TailKeepsFields(main.store, f, lat, lng, addressText, stamp, accepts);
  }

  /** A store holds every value of the writes `ws`. */
  ghost predicate Holds(r: Store, ws: seq<Write>) {
    forall w :: w in ws ==> w.key in r && r[w.key] == Text(w.value)
  }

  /** Loading gives back each contact field as it was stored, trimmed. */
  lemma LoadContacts(r: Store, f: Form)
    requires Holds(r, ContactWrites(f))
    ensures var c := Load(r);
      && c.whatsapp == Trim(f.whatsapp) && c.phone == Trim(f.phone)
      && c.instagram == Trim(f.instagram) && c.facebook == Trim(f.facebook)
      && c.email == Trim(f.email)
  {
    var cw := ContactWrites(f);
    assert cw[0] in cw && cw[1] in cw && cw[2] in cw && cw[3] in cw && cw[4] in cw;
  }

  /** Loading gives back each colour, or its default when it was stored empty. */
  lemma LoadColours(r: Store, f: Form)
    requires Holds(r, ColourWrites(f))
    ensures var c := Load(r);
      && c.bgColor == (if f.bgColor == "" then DefaultBgColor else f.bgColor)
      && c.btnColor == (if f.btnColor == "" then DefaultBtnColor else f.btnColor)
      && c.textColor == (if f.textColor == "" then DefaultTextColor else f.textColor)
  {
    var ow := ColourWrites(f);
    assert ow[0] in ow && ow[1] in ow && ow[2] in ow;
  }

  /** Loading gives back the trimmed address and message, or their defaults when they trim to nothing. */
  lemma LoadPlace(r: Store, f: Form, lat: string, lng: string, addressText: string)
    requires Holds(r, PlaceWrites(f, lat, lng, addressText))
    ensures var c := Load(r);
      && c.address == (if Trim(addressText) == "" then NoAddress else Trim(addressText))
      && c.whatsappMessage == (if Trim(f.whatsappMessage) == "" then DefaultMessage else Trim(f.whatsappMessage))
  {
    var pw := PlaceWrites(f, lat, lng, addressText);
    assert pw[2] in pw && pw[3] in pw;
  }

  /** Loading gives back every toggle as it was saved. */
  lemma LoadToggles(r: Store, f: Form)
    requires Holds(r, ToggleWrites(f))
    ensures var c := Load(r);
      && c.showWhatsapp == f.showWhatsapp && c.showTelefono == f.showTelefono
      && c.showInstagram == f.showInstagram && c.showFacebook == f.showFacebook
      && c.showEmail == f.showEmail && c.showMap == f.showMap
  {
    var tw := ToggleWrites(f);
    assert tw[0] in tw && tw[1] in tw && tw[2] in tw && tw[3] in tw && tw[4] in tw && tw[5] in tw;
  }

  /** Loading gives back a logo as the chosen file's URL, or as before the save when none was written. */
  lemma LoadLogos(r: Store, before: Store, f: Form, stamp: string)
    requires Holds(r, FinalWrites(f, stamp))
    requires !WritesLogo(f.logoStore) ==> SameAt(r, before, LogoStore)
    requires !WritesLogo(f.logoSearch) ==> SameAt(r, before, LogoSearch)
    ensures var c := Load(r);
      && c.logoStore == (if WritesLogo(f.logoStore) then f.logoStore.url else Load(before).logoStore)
      && c.logoSearch == (if WritesLogo(f.logoSearch) then f.logoSearch.url else Load(before).logoSearch)
  {
    var fw := FinalWrites(f, stamp);
    if WritesLogo(f.logoStore) {
      assert fw[0] in fw;
    }
    if WritesLogo(f.logoSearch) {
      assert fw[|fw| - 2] in fw;
    }
  }

  /** With room for every write, the save completes, and its store holds every toggle. */
  lemma UnlimitedSaveCompletes(store: Store, f: Form, lat: string, lng: string, addressText: string,
                               stamp: string, accepts: Store -> bool)
    requires Unlimited(accepts)
    ensures var r := SaveOutcome(store, f, lat, lng, addressText, stamp, accepts);
      r.completed && Holds(r.store, ToggleWrites(f))
  {
    var main := SaveFields(store, f, lat, lng, addressText, accepts);
    FieldsComplete(store, f, lat, lng, addressText, accepts);
    TailUnlimited(main.store, f, stamp, accepts);
  }

  /** With room for every write, the save completes, and its store holds every write and keeps the logos it does not write. */
  lemma UnlimitedSaveStores(store: Store, f: Form, lat: string, lng: string, addressText: string,
                            stamp: string, accepts: Store -> bool)
    requires Unlimited(accepts)
    ensures var r := SaveOutcome(store, f, lat, lng, addressText, stamp, accepts);
      && r.completed
      && Holds(r.store, ContactWrites(f)) && Holds(r.store, ColourWrites(f))
      && Holds(r.store, PlaceWrites(f, lat, lng, addressText)) && Holds(r.store, ToggleWrites(f))
      && Holds(r.store, FinalWrites(f, stamp))
      && (!WritesLogo(f.logoStore) ==> SameAt(r.store, store, LogoStore))
      && (!WritesLogo(f.logoSearch) ==> SameAt(r.store, store, LogoSearch))
  {
    UnlimitedSaveCompletes(store, f, lat, lng, addressText, stamp, accepts);
    CompletedSaveStoresFields(store, f, lat, lng, addressText, stamp, accepts);
    UnwrittenLogosKept(store, f, lat, lng, addressText, stamp, accepts);
  }

  /** A logo with no file chosen keeps what the store held before the save. */
  lemma UnwrittenLogosKept(store: Store, f: Form, lat: string, lng: string, addressText: string,
                           stamp: string, accepts: Store -> bool)
    ensures var r := SaveOutcome(store, f, lat, lng, addressText, stamp, accepts);
      && (!WritesLogo(f.logoStore) ==> SameAt(r.store, store, LogoStore))
      && (!WritesLogo(f.logoSearch) ==> SameAt(r.store, store, LogoSearch))
  {
    if !WritesLogo(f.logoStore) {
      SaveFrame(store, f, lat, lng, addressText, stamp, accepts, LogoStore);
    }
    if !WritesLogo(f.logoSearch) {
      SaveFrame(store, f, lat, lng, addressText, stamp, accepts, LogoSearch);
    }
  }

  /**
   * Save with room for every write, then load: trimmed contact fields,
   * colours and toggles come back exactly, except that a colour, the
   * message or the address saved as the empty string comes back as its
   * default; a logo comes back as the chosen file, or as before when none
   * was chosen.
   */
  lemma SaveThenLoad(store: Store, f: Form, lat: string, lng: string, addressText: string,
                     stamp: string, accepts: Store -> bool)
    requires Unlimited(accepts)
    ensures var r := SaveOutcome(store, f, lat, lng, addressText, stamp, accepts);
      var c := Load(r.store);
      && r.completed
      && c.whatsapp == Trim(f.whatsapp) && c.phone == Trim(f.phone)
      && c.instagram == Trim(f.instagram) && c.facebook == Trim(f.facebook)
      && c.email == Trim(f.email)
      && c.bgColor == (if f.bgColor == "" then DefaultBgColor else f.bgColor)
      && c.btnColor == (if f.btnColor == "" then DefaultBtnColor else f.btnColor)
      && c.textColor == (if f.textColor == "" then DefaultTextColor else f.textColor)
      && c.address == (if Trim(addressText) == "" then NoAddress else Trim(addressText))
      && c.whatsappMessage == (if Trim(f.whatsappMessage) == "" then DefaultMessage else Trim(f.whatsappMessage))
      && c.showWhatsapp == f.showWhatsapp && c.showTelefono == f.showTelefono
      && c.showInstagram == f.showInstagram && c.showFacebook == f.showFacebook
      && c.showEmail == f.showEmail && c.showMap == f.showMap
      && c.logoStore == (if WritesLogo(f.logoStore) then f.logoStore.url else Load(store).logoStore)
      && c.logoSearch == (if WritesLogo(f.logoSearch) then f.logoSearch.url else Load(store).logoSearch)
  {
    UnlimitedSaveStores(store, f, lat, lng, addressText, stamp, accepts);
    var r := SaveOutcome(store, f, lat, lng, addressText, stamp, accepts).store;
    LoadContacts(r, f);
    LoadColours(r, f);
    LoadPlace(r, f, lat, lng, addressText);
    LoadToggles(r, f);
    LoadLogos(r, store, f, stamp);
  }

}
