/** The asset loader of game.js: every image starts loading, each image's
    `onload` calls `assetLoaded`, which counts an image once, and the
    `finished` callback (which starts the game) fires when the count
    reaches the number of images. */
module AssetLoader {
  import opened Wrappers

  /** An image entry's `status`: `Pending` while the entry is still the
      path string (its `status` is `undefined`), then `"loading"` once
      `downloadAll` has replaced it by an image, then `"loaded"`. */
  datatype Status = Pending | Loading | Loaded

  /** Reading `.status` of a name that is neither an entry of the
      dictionary nor inherited by it. */
  datatype Error = TypeError

  /** The loader's state: the `images` dictionary, the closure counter
      `assetsLoaded`, `totalAssets`, and whether `finished` is a function. */
  datatype Loader = Loader(images: map<string, Status>, assetsLoaded: int, totalAssets: int, hasFinished: bool)

  /** The state after a call, and whether that call fired `finished`. */
  datatype Outcome = Outcome(loader: Loader, fired: bool)

  /** The keys of the `images` dictionary. */
  const ImageNames: set<string> := {"avatar_normal", "avatar_alza", "bg", "lineElement", "sky"}

  /** The properties every object literal inherits from `Object.prototype`.
      Looking one of them up in `images` gives a function or an object
      whose `status` is `undefined`, not an error. */
  const InheritedNames: set<string> :=
    {"constructor", "hasOwnProperty", "isPrototypeOf", "propertyIsEnumerable",
     "toLocaleString", "toString", "valueOf", "__proto__",
     "__defineGetter__", "__defineSetter__", "__lookupGetter__", "__lookupSetter__"}

  /** The names whose image has loaded. */
  function LoadedNames(images: map<string, Status>): (s: set<string>)
    ensures s <= images.Keys
    ensures forall k :: k in images ==> (k in s <==> images[k] == Loaded)
  {
    set k | k in images && images[k] == Loaded
  }

  predicate AllLoaded(l: Loader)
  {
    forall k :: k in l.images ==> l.images[k] == Loaded
  }

  /** The counter agrees with the dictionary: it counts the loaded images,
      and the total is the number of images. */
  predicate Counted(l: Loader)
  {
    l.assetsLoaded == |LoadedNames(l.images)| && l.totalAssets == |l.images|
  }

  /** The loader as the script creates it: every entry still a path, the
      counter at zero, the total the number of keys. */
  function Initial(names: set<string>, hasFinished: bool): (l: Loader)
    ensures l.images.Keys == names && l.totalAssets == |names| && l.assetsLoaded == 0
    ensures forall k :: k in l.images ==> l.images[k] == Pending
    ensures Counted(l)
  {
    var images := map k | k in names :: Pending;
    assert images.Keys == names;
    assert LoadedNames(images) == {};
    Loader(images, 0, |names|, hasFinished)
  }

  /** The status part of `downloadAll`: every entry becomes an image whose
      status is `"loading"`; the counter is not touched. */
  function DownloadAll(l: Loader): (r: Loader)
    ensures r.images.Keys == l.images.Keys
    ensures forall k :: k in r.images ==> r.images[k] == Loading
    ensures r.assetsLoaded == l.assetsLoaded && r.totalAssets == l.totalAssets && r.hasFinished == l.hasFinished
  {
    l.(images := map k | k in l.images :: Loading)
  }

  /** `assetLoaded("images", name)`. */
  function AssetLoaded(l: Loader, name: string): (r: Result<Outcome, Error>)
    ensures r.Failure? <==> name !in l.images && name !in InheritedNames
    ensures name !in l.images && name in InheritedNames ==> r == Success(Outcome(l, false))
    ensures name in l.images && l.images[name] != Loading ==> r == Success(Outcome(l, false))
    ensures name in l.images && l.images[name] == Loading ==>
              && r.Success?
              && r.value.loader.images == l.images[name := Loaded]
              && r.value.loader.assetsLoaded == l.assetsLoaded + 1
              && r.value.loader.totalAssets == l.totalAssets
              && r.value.loader.hasFinished == l.hasFinished
              && (r.value.fired <==> l.assetsLoaded + 1 == l.totalAssets && l.hasFinished)
  {
    if name !in l.images then
      if name in InheritedNames then Success(Outcome(l, false)) else Failure(TypeError)
    else if l.images[name] != Loading then Success(Outcome(l, false))
    else
      var l' := l.(images := l.images[name := Loaded], assetsLoaded := l.assetsLoaded + 1);
      Success(Outcome(l', l'.assetsLoaded == l'.totalAssets && l'.hasFinished))
  }

  /** A subset is no larger than its superset. */
  lemma {:induction false} SubsetCard(a: set<string>, b: set<string>)
    requires a <= b
    ensures |a| <= |b|
    decreases |a|
  {
    if a != {} {
      var x :| x in a;
      SubsetCard(a - {x}, b - {x});
    }
  }

  /** Under `Counted`, the counter equals the total exactly when every
      image has loaded. */
  lemma CountReachesTotal(l: Loader)
    requires Counted(l)
    ensures l.assetsLoaded <= l.totalAssets
    ensures l.assetsLoaded == l.totalAssets <==> AllLoaded(l)
  {
    var s := LoadedNames(l.images);
    SubsetCard(s, l.images.Keys);
    if !AllLoaded(l) {
      var k :| k in l.images && l.images[k] != Loaded;
      SubsetCard(s, l.images.Keys - {k});
    } else {
      assert s == l.images.Keys;
    }
  }

  /** One call keeps the counter honest, never lets it pass the total,
      and fires `finished` exactly when it completes the set of images. */
  lemma AssetLoadedCounts(l: Loader, name: string)
    requires Counted(l) && l.hasFinished && name in l.images
    ensures AssetLoaded(l, name).Success?
    ensures var o := AssetLoaded(l, name).value;
            && Counted(o.loader)
            && o.loader.assetsLoaded <= o.loader.totalAssets
            && (o.fired <==> !AllLoaded(l) && AllLoaded(o.loader))
  {
    var o := AssetLoaded(l, name).value;
    if l.images[name] == Loading {
      assert LoadedNames(o.loader.images) == LoadedNames(l.images) + {name};
    }
    CountReachesTotal(l);
    CountReachesTotal(o.loader);
  }

  /** Calling `assetLoaded` again for the same image changes nothing and
      does not fire `finished`. */
  lemma AssetLoadedIdempotent(l: Loader, name: string)
    requires name in l.images
    ensures var o := AssetLoaded(l, name).value;
            AssetLoaded(o.loader, name) == Success(Outcome(o.loader, false))
  {
  }

  /** The loader after a sequence of `onload` events, and how many times
      `finished` fired; `Failure` if an event names neither an image nor
      an inherited property. */
  datatype Trace = Trace(loader: Loader, fires: nat)

  function Run(l: Loader, events: seq<string>): (r: Result<Trace, Error>)
    ensures r.Success? <==>
              forall i :: 0 <= i < |events| ==> events[i] in l.images || events[i] in InheritedNames
    decreases |events|
  {
    if events == [] then Success(Trace(l, 0))
    else match AssetLoaded(l, events[0])
      case Failure(e) => Failure(e)
      case Success(o) =>
        match Run(o.loader, events[1..])
        case Failure(e) => Failure(e)
        case Success(t) => Success(Trace(t.loader, t.fires + if o.fired then 1 else 0))
  }

  /** Over any order of `onload` events (repeats included), `finished`
      fires at most once, and it fires exactly when the events take the
      loader from not-all-loaded to all-loaded; loaded images stay loaded,
      and every `"loading"` image named by an event ends up loaded. */
  lemma {:induction false} RunFiresOnce(l: Loader, events: seq<string>)
    requires Counted(l) && l.hasFinished
    requires forall i :: 0 <= i < |events| ==> events[i] in l.images
    ensures var t := Run(l, events).value;
            && Counted(t.loader) && t.loader.hasFinished
            && t.loader.images.Keys == l.images.Keys
            && (forall k :: k in l.images && l.images[k] == Loaded ==> t.loader.images[k] == Loaded)
            && (forall k :: k in l.images && l.images[k] == Pending ==> t.loader.images[k] == Pending)
            && (forall i :: 0 <= i < |events| && l.images[events[i]] == Loading ==>
                  t.loader.images[events[i]] == Loaded)
            && t.fires == (if !AllLoaded(l) && AllLoaded(t.loader) then 1 else 0)
    decreases |events|
  {
    if events != [] {
      var o := AssetLoaded(l, events[0]).value;
      AssetLoadedCounts(l, events[0]);
      RunFiresOnce(o.loader, events[1..]);
      var t := Run(o.loader, events[1..]).value;
      forall i | 0 <= i < |events| && l.images[events[i]] == Loading
        ensures t.loader.images[events[i]] == Loaded
      {
        if i > 0 {
          assert events[i] == events[1..][i - 1];
        }
      }
      if o.fired {
        assert AllLoaded(t.loader);
      }
    }
  }

  /** After `downloadAll`, once every image's `onload` has run (in any
      order, any number of times each), `finished` has fired exactly once
      and every image is loaded. */
  lemma FinishedExactlyOnce(events: seq<string>)
    requires forall i :: 0 <= i < |events| ==> events[i] in ImageNames
    requires forall k :: k in ImageNames ==> k in events
    ensures Initial(ImageNames, true).totalAssets == 5
    ensures Run(DownloadAll(Initial(ImageNames, true)), events).Success?
    ensures var t := Run(DownloadAll(Initial(ImageNames, true)), events).value;
            t.fires == 1 && AllLoaded(t.loader)
  {
    assert |ImageNames| == 5;
    var l := DownloadAll(Initial(ImageNames, true));
    assert forall i :: 0 <= i < |events| ==> events[i] in l.images;
    assert LoadedNames(l.images) == {};
    assert "bg" in l.images && l.images["bg"] != Loaded;
    RunFiresOnce(l, events);
    var t := Run(l, events).value;
    forall k | k in t.loader.images
      ensures t.loader.images[k] == Loaded
    {
      var i :| 0 <= i < |events| && events[i] == k;
    }
  }
}
