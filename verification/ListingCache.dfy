/** The TTL cache of folder listings, lookups through it, and what its answers
    mean while other clients change the Drive. */
module ListingCache {
  import opened Basics

  datatype Item = Item(name: string, uuid: string)
  datatype Entry = Entry(items: seq<Item>, expires: nat)

  function Find(items: seq<Item>, name: string): (found: Option<Item>)
    ensures found.Some? ==> found.value in items && found.value.name == name
    ensures found.None? ==> forall i | i in items :: i.name != name
  {
    if items == [] then None else if items[0].name == name then Some(items[0]) else Find(items[1..], name)
  }

  /** One of the two maps; the other works alike. */
  datatype Cache = Cache(ttl: nat, entries: map<string, Entry>) {
    predicate Hit(folder: string, now: nat) {
      ttl > 0 && folder in entries && entries[folder].expires > now
    }

    function AfterGet(folder: string, now: nat): Cache {
      if ttl > 0 && folder in entries && entries[folder].expires <= now then this.(entries := entries - {folder}) else this
    }

    function Put(folder: string, items: seq<Item>, now: nat): Cache {
      if ttl == 0 then this else this.(entries := entries[folder := Entry(items, now + ttl)])
    }

    function Invalidate(folder: string): Cache {
      if ttl == 0 then this else this.(entries := entries - {folder})
    }
  }

  class FolderCache {
    const ttl: nat
    var folders: map<string, Entry>
    var files: map<string, Entry>

    ghost function Folders(): Cache reads this { Cache(ttl, folders) }
    ghost function Files(): Cache reads this { Cache(ttl, files) }

    constructor (ttl: nat)
      ensures this.ttl == ttl && folders == map[] && files == map[]
    {
      this.ttl := ttl;
      folders, files := map[], map[];
    }

    method Get(folder: string, now: nat) returns (hit: Option<seq<Item>>)
      modifies this`folders
      ensures hit.Some? <==> ttl > 0 && folder in old(folders) && now < old(folders)[folder].expires
      ensures hit.Some? ==> folder in old(folders) && hit.value == old(folders)[folder].items
      ensures folders == if ttl > 0 && folder in old(folders) && hit.None? then old(folders) - {folder} else old(folders)
      ensures Folders() == old(Folders()).AfterGet(folder, now)
    {
      if ttl == 0 || folder !in folders {
        return None;
      }
      if folders[folder].expires > now {
        return Some(folders[folder].items);
      }
      folders := folders - {folder};
      return None;
    }

    method Put(folder: string, items: seq<Item>, now: nat)
      modifies this`folders
      ensures folders == if ttl > 0 then old(folders)[folder := Entry(items, now + ttl)] else old(folders)
      ensures Folders() == old(Folders()).Put(folder, items, now)
    {
      if ttl == 0 {
        return;
      }
      folders := folders[folder := Entry(items, now + ttl)];
    }

    /** Both kinds go. */
    method Invalidate(folder: string)
      modifies this
      ensures ttl > 0 ==> folder !in folders && folder !in files
      ensures forall other | other != folder && other in old(folders) :: other in folders && folders[other] == old(folders)[other]
      ensures forall other | other != folder && other in old(files) :: other in files && files[other] == old(files)[other]
      ensures Folders() == old(Folders()).Invalidate(folder)
      ensures Files() == old(Files()).Invalidate(folder)
    {
      if ttl == 0 {
        return;
      }
      folders, files := folders - {folder}, files - {folder};
    }

    method Clear()
      modifies this
      ensures ttl > 0 ==> folders == map[] && files == map[]
      ensures ttl == 0 ==> folders == old(folders) && files == old(files)
    {
      if ttl == 0 {
        return;
      }
      folders, files := map[], map[];
    }

    /** `find_folder` when nothing else happens meanwhile: `live` is what the
        server lists. Only a name found in a fresh entry is answered from the
        cache. */
    method FindFolder(parent: string, name: string, now: nat, live: seq<Item>) returns (found: Option<Item>)
      modifies this`folders
      ensures var c := old(folders);
              if ttl > 0 && parent in c && now < c[parent].expires && Find(c[parent].items, name).Some? then
                found == Find(c[parent].items, name) && folders == old(folders)
              else
                found == Find(live, name) && (ttl > 0 ==> folders == old(folders)[parent := Entry(live, now + ttl)])
      ensures found.None? ==> forall i | i in live :: i.name != name
    {
      var cached := Get(parent, now);
      if cached.Some? {
        var f := Find(cached.value, name);
        if f.Some? {
          return f;
        }
      }
      found := Find(live, name);
      Put(parent, live, now);
    }
  }

  // ---- answers over time ----

  /** What every folder lists from a moment on. */
  datatype Moment = Moment(since: nat, listing: map<string, seq<Item>>)

  /** A listing fetched for a lookup at time `at`, and not yet stored. `version`
      counts the changes made on the server before it was taken. */
  datatype Flight = Flight(folder: string, name: string, items: seq<Item>, version: nat, at: nat)

  /** For a cached folder: the version its listing was taken at, when, and when
      it was stored. */
  datatype Origin = Origin(version: nat, taken: nat, stored: nat)

  /** What a lookup answered at time `at`, and the moment it goes back to. */
  datatype Answer = Answer(folder: string, name: string, found: Option<Item>, at: nat, cached: bool,
                           version: nat, taken: nat)

  /** `history` is every state the server has been in, the last one current. */
  datatype World = World(
    now: nat,
    history: seq<Moment>,
    cache: Cache,
    flights: map<nat, Flight>,
    origins: map<string, Origin>,
    answers: seq<Answer>)
  {
    function Listing(version: nat, folder: string): seq<Item>
      requires version < |history|
    {
      var l := history[version].listing;
      if folder in l then l[folder] else []
    }

    function Live(folder: string): seq<Item>
      requires history != []
    {
      Listing(|history| - 1, folder)
    }

    /** The version was the live one at that time. */
    predicate LiveAt(version: nat, time: nat) {
      && version < |history| && history[version].since <= time
      && time <= if version + 1 < |history| then history[version + 1].since else now
    }
  }

  /** Any client may change any listing. A lookup answers from the cache if it
      can; if not it takes the listing from the server at one moment, and stores
      it and answers from it at a later one. */
  datatype Step =
    | Tick(seconds: nat)
    | Change(folder: string, items: seq<Item>)
    | Look(folder: string, name: string)
    | Fetch(call: nat, folder: string, name: string)
    | Store(call: nat)
    | Invalidate(folder: string)

  predicate Enabled(w: World, step: Step) {
    match step
    case Fetch(call, _, _) => call !in w.flights && w.history != []
    case Store(call) => call in w.flights
    case Change(_, _) => w.history != []
    case _ => true
  }

  /** A name found in a fresh entry is an answer; anything else is not. */
  ghost function LookUp(w: World, folder: string, name: string): World {
    var w' := w.(cache := w.cache.AfterGet(folder, w.now));
    if !w.cache.Hit(folder, w.now) || folder !in w.origins then w'
    else
      var found := Find(w.cache.entries[folder].items, name);
      if found.None? then w'
      else w'.(answers := w.answers + [Answer(folder, name, found, w.now, true, w.origins[folder].version, w.origins[folder].taken)])
  }

  ghost function Land(w: World, call: nat): World
    requires call in w.flights
  {
    var f := w.flights[call];
    w.(cache := w.cache.Put(f.folder, f.items, w.now),
       flights := w.flights - {call},
       origins := w.origins[f.folder := Origin(f.version, f.at, w.now)],
       answers := w.answers + [Answer(f.folder, f.name, Find(f.items, f.name), w.now, false, f.version, f.at)])
  }

  ghost function TakeOff(w: World, call: nat, folder: string, name: string): World
    requires w.history != []
  {
    w.(flights := w.flights[call := Flight(folder, name, w.Live(folder), |w.history| - 1, w.now)])
  }

  ghost function Changed(w: World, folder: string, items: seq<Item>): World
    requires w.history != []
  {
    var last := w.history[|w.history| - 1];
    w.(history := w.history + [Moment(w.now, last.listing[folder := items])])
  }

  ghost function Apply(w: World, step: Step): World
    requires Enabled(w, step)
  {
    match step
    case Tick(seconds) => w.(now := w.now + seconds)
    case Change(folder, items) => Changed(w, folder, items)
    case Look(folder, name) => LookUp(w, folder, name)
    case Fetch(call, folder, name) => TakeOff(w, call, folder, name)
    case Store(call) => Land(w, call)
    case Invalidate(folder) => w.(cache := w.cache.Invalidate(folder))
  }

  ghost predicate IsRun(w: World, steps: seq<Step>)
    decreases |steps|
  {
    steps == [] || (Enabled(w, steps[0]) && IsRun(Apply(w, steps[0]), steps[1..]))
  }

  ghost function After(w: World, steps: seq<Step>): World
    requires IsRun(w, steps)
    decreases |steps|
  {
    if steps == [] then w else After(Apply(w, steps[0]), steps[1..])
  }

  /** No listing is stored more than `delay` seconds after it was taken; with 0
      every lookup happens at one moment. */
  ghost predicate IsPrompt(w: World, steps: seq<Step>, delay: nat)
    requires IsRun(w, steps)
    decreases |steps|
  {
    steps == [] ||
    ((steps[0].Store? ==> w.now - w.flights[steps[0].call].at <= delay) && IsPrompt(Apply(w, steps[0]), steps[1..], delay))
  }

  ghost predicate Start(w: World) {
    && |w.history| == 1 && w.history[0].since <= w.now
    && w.cache.entries == map[] && w.flights == map[] && w.origins == map[] && w.answers == []
  }

  /** What was taken then is what the folder listed. */
  predicate TrueListing(w: World, folder: string, items: seq<Item>, version: nat, time: nat) {
    w.LiveAt(version, time) && items == w.Listing(version, folder)
  }

  ghost predicate EntryFine(w: World, folder: string, delay: nat)
    requires folder in w.cache.entries
  {
    && folder in w.origins
    && var o, e := w.origins[folder], w.cache.entries[folder];
    && TrueListing(w, folder, e.items, o.version, o.taken)
    && o.taken <= o.stored <= w.now && o.stored - o.taken <= delay && e.expires == o.stored + w.cache.ttl
  }

  ghost predicate FlightFine(w: World, f: Flight) {
    TrueListing(w, f.folder, f.items, f.version, f.at) && f.at <= w.now
  }

  /** The answer was true at the time `taken`: less than a TTL and a delay ago
      if it came from the cache, and then it was positive; no longer ago than
      the delay, while the lookup was under way, if it did not. */
  ghost predicate AnswerFine(w: World, a: Answer, delay: nat) {
    && w.LiveAt(a.version, a.taken) && a.taken <= a.at <= w.now
    && a.found == Find(w.Listing(a.version, a.folder), a.name)
    && (a.cached ==> a.found.Some? && a.at - a.taken < w.cache.ttl + delay && w.cache.ttl > 0)
    && (!a.cached ==> a.at - a.taken <= delay)
  }

  ghost predicate Honest(w: World, delay: nat) {
    && w.history != [] && w.history[|w.history| - 1].since <= w.now
    && (w.cache.ttl == 0 ==> w.cache.entries == map[])
    && (forall folder | folder in w.cache.entries :: EntryFine(w, folder, delay))
    && (forall call | call in w.flights :: FlightFine(w, w.flights[call]))
    && (forall i | 0 <= i < |w.answers| :: AnswerFine(w, w.answers[i], delay))
  }

  /** Time has gone on, and perhaps one listing has changed. */
  ghost predicate Later(w: World, w': World) {
    && w.history <= w'.history && w.history != []
    && w.now <= w'.now && w'.cache.ttl == w.cache.ttl
    && (|w'.history| > |w.history| ==> w'.history[|w.history|].since == w.now)
  }

  lemma ListingsStay(w: World, w': World, version: nat, time: nat)
    requires Later(w, w') && w.LiveAt(version, time)
    ensures w'.LiveAt(version, time) && forall folder :: w'.Listing(version, folder) == w.Listing(version, folder)
  {
  }

  lemma EntryStays(w: World, w': World, folder: string, delay: nat)
    requires Later(w, w') && folder in w.cache.entries && EntryFine(w, folder, delay)
    requires folder in w'.cache.entries && w'.cache.entries[folder] == w.cache.entries[folder]
    requires folder in w'.origins && w'.origins[folder] == w.origins[folder]
    ensures EntryFine(w', folder, delay)
  {
    ListingsStay(w, w', w.origins[folder].version, w.origins[folder].taken);
  }

  lemma FlightStays(w: World, w': World, f: Flight)
    requires Later(w, w') && FlightFine(w, f)
    ensures FlightFine(w', f)
  {
    ListingsStay(w, w', f.version, f.at);
  }

  lemma AnswerStays(w: World, w': World, a: Answer, delay: nat)
    requires Later(w, w') && AnswerFine(w, a, delay)
    ensures AnswerFine(w', a, delay)
  {
    ListingsStay(w, w', a.version, a.taken);
  }

  /** Whatever is kept stays honest; what is new has to be so. */
  lemma StaysHonest(w: World, w': World, delay: nat)
    requires Honest(w, delay) && Later(w, w') && w'.history[|w'.history| - 1].since <= w'.now
    requires w'.cache.ttl == 0 ==> w'.cache.entries == map[]
    requires forall folder | folder in w'.cache.entries ::
               EntryFine(w', folder, delay)
               || (folder in w.cache.entries && w'.cache.entries[folder] == w.cache.entries[folder]
                   && folder in w'.origins && folder in w.origins && w'.origins[folder] == w.origins[folder])
    requires forall call | call in w'.flights ::
               FlightFine(w', w'.flights[call]) || (call in w.flights && w'.flights[call] == w.flights[call])
    requires w.answers <= w'.answers
    requires forall i | |w.answers| <= i < |w'.answers| :: AnswerFine(w', w'.answers[i], delay)
    ensures Honest(w', delay)
  {
    forall folder | folder in w'.cache.entries
      ensures EntryFine(w', folder, delay)
    {
      if !EntryFine(w', folder, delay) {
        EntryStays(w, w', folder, delay);
      }
    }
    forall call | call in w'.flights
      ensures FlightFine(w', w'.flights[call])
    {
      if !FlightFine(w', w'.flights[call]) {
        FlightStays(w, w', w.flights[call]);
      }
    }
    forall i | 0 <= i < |w'.answers|
      ensures AnswerFine(w', w'.answers[i], delay)
    {
      if i < |w.answers| {
        assert w'.answers[i] == w.answers[i];
        AnswerStays(w, w', w.answers[i], delay);
      }
    }
  }

  lemma LookUpStaysHonest(w: World, folder: string, name: string, delay: nat)
    requires Honest(w, delay)
    ensures Honest(LookUp(w, folder, name), delay) && Later(w, LookUp(w, folder, name))
  {
    var w' := LookUp(w, folder, name);
    if w.cache.Hit(folder, w.now) {
      assert EntryFine(w, folder, delay);
    }
    StaysHonest(w, w', delay);
  }

  lemma LandStaysHonest(w: World, call: nat, delay: nat)
    requires Honest(w, delay) && call in w.flights && w.now - w.flights[call].at <= delay
    ensures Honest(Land(w, call), delay) && Later(w, Land(w, call))
  {
    var w', f := Land(w, call), w.flights[call];
    assert FlightFine(w, f);
    assert w'.answers[|w.answers|] == Answer(f.folder, f.name, Find(f.items, f.name), w.now, false, f.version, f.at);
    StaysHonest(w, w', delay);
  }

  lemma StepStaysHonest(w: World, step: Step, delay: nat)
    requires Honest(w, delay) && Enabled(w, step)
    requires step.Store? ==> w.now - w.flights[step.call].at <= delay
    ensures Honest(Apply(w, step), delay) && Later(w, Apply(w, step))
  {
    match step
    case Look(folder, name) => LookUpStaysHonest(w, folder, name, delay);
    case Store(call) => LandStaysHonest(w, call, delay);
    case _ => StaysHonest(w, Apply(w, step), delay);
  }

  lemma {:induction false} RunStaysHonest(w: World, steps: seq<Step>, delay: nat)
    requires Honest(w, delay) && IsRun(w, steps) && IsPrompt(w, steps, delay)
    ensures Honest(After(w, steps), delay)
    ensures After(w, steps).cache.ttl == w.cache.ttl
    decreases |steps|
  {
    if steps != [] {
      StepStaysHonest(w, steps[0], delay);
      RunStaysHonest(Apply(w, steps[0]), steps[1..], delay);
    }
  }

  /** A positive answer from the cache was true less than a TTL ago, give or
      take the time lookups need to store what they took; less than one TTL ago
      if they happen at one moment. With TTL 0 there are none. */
  lemma CachedAnswerWasTrue(w0: World, steps: seq<Step>, delay: nat, i: nat)
    requires Start(w0) && IsRun(w0, steps) && IsPrompt(w0, steps, delay)
    requires i < |After(w0, steps).answers| && After(w0, steps).answers[i].cached
    ensures var w := After(w0, steps);
            var a := w.answers[i];
            && w0.cache.ttl > 0 && a.found.Some?
            && w.LiveAt(a.version, a.taken) && a.found == Find(w.Listing(a.version, a.folder), a.name)
            && a.taken <= a.at < a.taken + w0.cache.ttl + delay
  {
    RunStaysHonest(w0, steps, delay);
  }

  /** A negative answer, whenever it is given, says what the live listing said
      at a moment of its own lookup; if lookups happen at one moment, what it
      says right then. */
  lemma NegativeAnswerWasLive(w0: World, steps: seq<Step>, delay: nat, i: nat)
    requires Start(w0) && IsRun(w0, steps) && IsPrompt(w0, steps, delay)
    requires i < |After(w0, steps).answers| && After(w0, steps).answers[i].found.None?
    ensures var w := After(w0, steps);
            var a := w.answers[i];
            && !a.cached && w.LiveAt(a.version, a.taken) && a.taken <= a.at <= a.taken + delay
            && (forall item | item in w.Listing(a.version, a.folder) :: item.name != a.name)
  {
    RunStaysHonest(w0, steps, delay);
  }

  /** Any lookup may go to the server; it answers with what is listed there, and
      another right after it is answered alike, from the cache if there is one. */
  lemma LookupsAnswer(w: World, call: nat, folder: string, name: string)
    requires w.history != [] && call !in w.flights
    ensures var steps := [Fetch(call, folder, name), Store(call)];
            && IsRun(w, steps)
            && var w' := After(w, steps);
            && |w'.answers| == |w.answers| + 1 && w'.answers[|w.answers|].found == Find(w.Live(folder), name)
            && (w.cache.ttl > 0 && Find(w.Live(folder), name).Some? ==>
                  && |LookUp(w', folder, name).answers| == |w.answers| + 2
                  && LookUp(w', folder, name).answers[|w.answers| + 1].found == Find(w.Live(folder), name))
            && (w.cache.ttl == 0 ==> LookUp(w', folder, name).answers == w'.answers)
  {
    var w1 := TakeOff(w, call, folder, name);
    assert [Fetch(call, folder, name), Store(call)][1..] == [Store(call)] && [Store(call)][1..] == [];
    assert After(w1, [Store(call)]) == After(Land(w1, call), []);
  }

  // ---- read your own writes ----

  /** Nothing older than `version` is held for the folder. */
  ghost predicate FreshFrom(w: World, folder: string, version: nat) {
    && (folder in w.cache.entries ==> folder in w.origins && w.origins[folder].version >= version)
    && (forall call | call in w.flights && w.flights[call].folder == folder :: w.flights[call].version >= version)
  }

  lemma StepStaysFresh(w: World, step: Step, folder: string, version: nat)
    requires Enabled(w, step) && FreshFrom(w, folder, version) && version < |w.history|
    ensures FreshFrom(Apply(w, step), folder, version) && |w.history| <= |Apply(w, step).history|
    ensures w.answers <= Apply(w, step).answers
    ensures forall i | |w.answers| <= i < |Apply(w, step).answers| && Apply(w, step).answers[i].folder == folder ::
              Apply(w, step).answers[i].version >= version
  {
  }

  /** Neither what is held nor any later answer predates the version. */
  lemma {:induction false} FreshnessLasts(w: World, steps: seq<Step>, folder: string, version: nat)
    requires IsRun(w, steps) && FreshFrom(w, folder, version) && version < |w.history|
    ensures FreshFrom(After(w, steps), folder, version) && w.answers <= After(w, steps).answers
    ensures forall i | |w.answers| <= i < |After(w, steps).answers| && After(w, steps).answers[i].folder == folder ::
              After(w, steps).answers[i].version >= version
    decreases |steps|
  {
    if steps != [] {
      var w1 := Apply(w, steps[0]);
      StepStaysFresh(w, steps[0], folder, version);
      FreshnessLasts(w1, steps[1..], folder, version);
      forall i | |w.answers| <= i < |w1.answers|
        ensures After(w, steps).answers[i] == w1.answers[i]
      {
      }
    }
  }

  ghost predicate AnswersFresh(w: World, steps: seq<Step>, folder: string, version: nat)
    requires IsRun(w, steps)
  {
    forall i | |w.answers| <= i < |After(w, steps).answers| && After(w, steps).answers[i].folder == folder ::
      After(w, steps).answers[i].version >= version
  }

  lemma HoldsNothingOld(w: World, folder: string, items: seq<Item>)
    requires w.history != [] && (w.cache.ttl == 0 ==> w.cache.entries == map[])
    requires forall call | call in w.flights :: w.flights[call].folder != folder
    ensures FreshFrom(Apply(Changed(w, folder, items), Invalidate(folder)), folder, |w.history|)
  {
  }

  /** A lookup that holds an older listing answers from it when it ends. */
  lemma OldFlightAnswers(w: World, call: nat, folder: string, version: nat)
    requires call in w.flights && w.flights[call].folder == folder && w.flights[call].version < version
    ensures IsRun(w, [Store(call)]) && !AnswersFresh(w, [Store(call)], folder, version)
  {
    var w' := Land(w, call);
    assert [Store(call)][1..] == [] && After(w', []) == w';
    assert After(w, [Store(call)]) == w';
    assert w'.answers[|w.answers|].folder == folder;
  }

  /** Change a listing, then invalidate. From then on no answer for that folder
      predates the change if and only if no lookup had taken the old listing and
      not yet stored it. */
  lemma InvalidateThenFresh(w: World, folder: string, items: seq<Item>, delay: nat)
    requires Honest(w, delay)
    ensures var w1 := Apply(Changed(w, folder, items), Invalidate(folder));
            (forall call | call in w.flights :: w.flights[call].folder != folder)
            <==> forall steps: seq<Step> | IsRun(w1, steps) :: AnswersFresh(w1, steps, folder, |w.history|)
  {
    var w1 := Apply(Changed(w, folder, items), Invalidate(folder));
    if forall call | call in w.flights :: w.flights[call].folder != folder {
      HoldsNothingOld(w, folder, items);
      forall steps: seq<Step> | IsRun(w1, steps)
        ensures AnswersFresh(w1, steps, folder, |w.history|)
      {
        FreshnessLasts(w1, steps, folder, |w.history|);
      }
    } else {
      var call :| call in w.flights && w.flights[call].folder == folder;
      assert FlightFine(w, w.flights[call]);
      OldFlightAnswers(w1, call, folder, |w.history|);
    }
  }
}
