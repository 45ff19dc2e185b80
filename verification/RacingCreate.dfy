/** Many requests creating the same folder at once, each through a cache that
    may hold stale listings: look, else create, else look again. */
module RacingCreate {
  import opened Basics
  import opened ListingCache

  const FOLDER_CREATE_ATTEMPTS: nat := 6

  /** Where one call of `get_or_create_child` stands. */
  datatype Phase =
    | Looking
    | Fetched(items: seq<Item>)
    | Creating
    | Found(item: Item)
    | GaveUp

  datatype Call = Call(parent: string, name: string, attempt: nat, phase: Phase)

  /** Folders are not deleted meanwhile. `cached` holds whatever listings of
      the past the cache holds; expiry only removes from it. */
  datatype World = World(live: map<string, seq<Item>>, cached: map<string, seq<Item>>, calls: map<nat, Call>)
  {
    function Live(parent: string): seq<Item> {
      if parent in live then live[parent] else []
    }
  }

  /** `CreateFails` covers a refusal and any transient error; `landed` says the
      server had made the folder all the same. `Outside` is another client. */
  datatype Step =
    | Begin(id: nat, parent: string, name: string)
    | LookInCache(id: nat)
    | LookLive(id: nat)
    | LookFails(id: nat)
    | StoreAndDecide(id: nat)
    | CreateSucceeds(id: nat, uuid: string)
    | CreateFails(id: nat, landed: Option<string>)
    | Outside(parent: string, name: string, uuid: string)
    | Forget(parent: string)

  /** The server makes no second folder of one name. */
  predicate CanCreate(w: World, parent: string, name: string) {
    Find(w.Live(parent), name).None?
  }

  predicate Enabled(w: World, step: Step) {
    match step
    case Begin(id, _, _) => id !in w.calls
    case LookInCache(id) =>
      && id in w.calls && w.calls[id].phase.Looking? && w.calls[id].parent in w.cached
      && Find(w.cached[w.calls[id].parent], w.calls[id].name).Some?
    case LookLive(id) => id in w.calls && w.calls[id].phase.Looking?
    case LookFails(id) => id in w.calls && w.calls[id].phase.Looking?
    case StoreAndDecide(id) => id in w.calls && w.calls[id].phase.Fetched?
    case CreateSucceeds(id, _) =>
      && id in w.calls && w.calls[id].phase.Creating?
      && CanCreate(w, w.calls[id].parent, w.calls[id].name)
    case CreateFails(id, landed) =>
      && id in w.calls && w.calls[id].phase.Creating?
      && (landed.Some? ==> CanCreate(w, w.calls[id].parent, w.calls[id].name))
    case Outside(parent, name, _) => CanCreate(w, parent, name)
    case Forget(_) => true
  }

  function Made(w: World, parent: string, name: string, uuid: string): map<string, seq<Item>> {
    w.live[parent := w.Live(parent) + [Item(name, uuid)]]
  }

  function Apply(w: World, step: Step): World
    requires Enabled(w, step)
  {
    match step
    case Begin(id, parent, name) => w.(calls := w.calls[id := Call(parent, name, 0, Looking)])
    case LookInCache(id) =>
      var c := w.calls[id];
      w.(calls := w.calls[id := c.(phase := Found(Find(w.cached[c.parent], c.name).value))])
    case LookLive(id) =>
      var c := w.calls[id];
      w.(calls := w.calls[id := c.(phase := Fetched(w.Live(c.parent)))])
    case LookFails(id) => w.(calls := w.calls[id := w.calls[id].(phase := GaveUp)])
    case StoreAndDecide(id) =>
      var c := w.calls[id];
      var found := Find(c.phase.items, c.name);
      w.(cached := w.cached[c.parent := c.phase.items],
         calls := w.calls[id := c.(phase := if found.Some? then Found(found.value) else Creating)])
    case CreateSucceeds(id, uuid) =>
      var c := w.calls[id];
      w.(live := Made(w, c.parent, c.name, uuid),
         cached := w.cached - {c.parent},
         calls := w.calls[id := c.(phase := Found(Item(c.name, uuid)))])
    case CreateFails(id, landed) =>
      var c := w.calls[id];
      var again := c.attempt + 1 < FOLDER_CREATE_ATTEMPTS;
      w.(live := if landed.Some? then Made(w, c.parent, c.name, landed.value) else w.live,
         calls := w.calls[id := c.(attempt := c.attempt + 1, phase := if again then Looking else GaveUp)])
    case Outside(parent, name, uuid) => w.(live := Made(w, parent, name, uuid))
    case Forget(parent) => w.(cached := w.cached - {parent})
  }

  ghost predicate IsRun(w: World, steps: seq<Step>)
    decreases |steps|
  {
    steps == [] || (Enabled(w, steps[0]) && IsRun(Apply(w, steps[0]), steps[1..]))
  }

  ghost function After(w: World, steps: seq<Step>): World
    requires IsRun(w, steps)
    decreases |steps|
  {
    if steps == [] then w else After(Apply(w, steps[0]), steps[1..])
  }

  ghost predicate UniqueNames(items: seq<Item>) {
    forall i, j | 0 <= i < j < |items| :: items[i].name != items[j].name
  }

  ghost predicate PartOf(a: seq<Item>, b: seq<Item>) {
    forall item | item in a :: item in b
  }

  ghost predicate CallFine(w: World, c: Call) {
    && (c.phase.GaveUp? || c.attempt < FOLDER_CREATE_ATTEMPTS)
    && (c.phase.Fetched? ==> PartOf(c.phase.items, w.Live(c.parent)))
    && (c.phase.Found? ==> c.phase.item in w.Live(c.parent) && c.phase.item.name == c.name)
  }

  /** No name is listed twice, and every listing and answer anywhere is part of
      what the server lists now. */
  ghost predicate Inv(w: World) {
    && (forall parent :: UniqueNames(w.Live(parent)))
    && (forall parent | parent in w.cached :: PartOf(w.cached[parent], w.Live(parent)))
    && (forall id | id in w.calls :: CallFine(w, w.calls[id]))
  }

  lemma GrowthIsFine(w: World, parent: string, name: string, uuid: string)
    requires Inv(w) && CanCreate(w, parent, name)
    ensures Inv(w.(live := Made(w, parent, name, uuid)))
  {
    var w' := w.(live := Made(w, parent, name, uuid));
    forall p
      ensures UniqueNames(w'.Live(p)) && PartOf(w.Live(p), w'.Live(p))
    {
      assert UniqueNames(w.Live(p));
    }
    forall id | id in w'.calls
      ensures CallFine(w', w'.calls[id])
    {
      assert CallFine(w, w.calls[id]);
    }
  }

  /** Steps that leave the server alone. */
  lemma SameLiveKeeps(w: World, w': World, id: nat)
    requires Inv(w) && w'.live == w.live
    requires forall parent | parent in w'.cached :: PartOf(w'.cached[parent], w.Live(parent))
    requires forall k | k in w'.calls && k != id :: k in w.calls && w'.calls[k] == w.calls[k]
    requires id in w'.calls ==> CallFine(w', w'.calls[id])
    ensures Inv(w')
  {
    forall parent
      ensures UniqueNames(w'.Live(parent))
    {
      assert UniqueNames(w.Live(parent));
    }
    forall k | k in w'.calls
      ensures CallFine(w', w'.calls[k])
    {
      assert k != id ==> CallFine(w, w.calls[k]);
    }
  }

  lemma CreateKeeps(w: World, id: nat, uuid: string)
    requires Inv(w) && Enabled(w, CreateSucceeds(id, uuid))
    ensures Inv(Apply(w, CreateSucceeds(id, uuid)))
  {
    var c := w.calls[id];
    GrowthIsFine(w, c.parent, c.name, uuid);
    var grown := w.(live := Made(w, c.parent, c.name, uuid));
    assert Item(c.name, uuid) == grown.Live(c.parent)[|w.Live(c.parent)|];
    SameLiveKeeps(grown, Apply(w, CreateSucceeds(id, uuid)), id);
  }

  lemma CreateFailsKeeps(w: World, id: nat, landed: Option<string>)
    requires Inv(w) && Enabled(w, CreateFails(id, landed))
    ensures Inv(Apply(w, CreateFails(id, landed)))
  {
    var c := w.calls[id];
    var grown := w;
    if landed.Some? {
      GrowthIsFine(w, c.parent, c.name, landed.value);
      grown := w.(live := Made(w, c.parent, c.name, landed.value));
    }
    SameLiveKeeps(grown, Apply(w, CreateFails(id, landed)), id);
  }

  lemma LookKeeps(w: World, step: Step)
    requires Inv(w) && Enabled(w, step)
    requires step.Begin? || step.LookInCache? || step.LookLive? || step.LookFails? || step.StoreAndDecide?
    ensures Inv(Apply(w, step))
  {
    assert step.id in w.calls ==> CallFine(w, w.calls[step.id]);
    SameLiveKeeps(w, Apply(w, step), step.id);
  }

  lemma StepKeepsInv(w: World, step: Step)
    requires Inv(w) && Enabled(w, step)
    ensures Inv(Apply(w, step))
  {
    match step
    case CreateSucceeds(id, uuid) => CreateKeeps(w, id, uuid);
    case CreateFails(id, landed) => CreateFailsKeeps(w, id, landed);
    case Outside(parent, name, uuid) => GrowthIsFine(w, parent, name, uuid);
    case Forget(_) => SameLiveKeeps(w, Apply(w, step), 0);
    case _ => LookKeeps(w, step);
  }

  lemma {:induction false} RunKeepsInv(w: World, steps: seq<Step>)
    requires Inv(w) && IsRun(w, steps)
    ensures Inv(After(w, steps))
    decreases |steps|
  {
    if steps != [] {
      StepKeepsInv(w, steps[0]);
      RunKeepsInv(Apply(w, steps[0]), steps[1..]);
    }
  }

  lemma {:induction false} OneOfAName(items: seq<Item>, item: Item)
    requires UniqueNames(items) && item in items
    ensures Find(items, item.name) == Some(item)
  {
    if items[0] != item {
      assert item in items[1..];
      var j :| 0 <= j < |items[1..]| && items[1..][j] == item;
      assert items[j + 1] == item;
      OneOfAName(items[1..], item);
    }
  }

  /** Racing callers agree. Over every run, all calls that succeed for one
      parent and name answer with the same folder, and it is the only one of
      that name the server lists, whatever the cache held. */
  lemma RacersAgree(w0: World, steps: seq<Step>, a: nat, b: nat)
    requires Inv(w0) && IsRun(w0, steps)
    requires var w := After(w0, steps);
             && a in w.calls && b in w.calls && w.calls[a].phase.Found? && w.calls[b].phase.Found?
             && w.calls[a].parent == w.calls[b].parent && w.calls[a].name == w.calls[b].name
    ensures var w := After(w0, steps);
            && w.calls[a].phase.item == w.calls[b].phase.item
            && Find(w.Live(w.calls[a].parent), w.calls[a].name) == Some(w.calls[a].phase.item)
            && UniqueNames(w.Live(w.calls[a].parent))
  {
    RunKeepsInv(w0, steps);
    var w := After(w0, steps);
    assert CallFine(w, w.calls[a]) && CallFine(w, w.calls[b]);
    OneOfAName(w.Live(w.calls[a].parent), w.calls[a].phase.item);
    OneOfAName(w.Live(w.calls[a].parent), w.calls[b].phase.item);
  }

  lemma RunOfThree(w: World, a: Step, b: Step, c: Step)
    requires Enabled(w, a) && Enabled(Apply(w, a), b) && Enabled(Apply(Apply(w, a), b), c)
    ensures IsRun(w, [a, b, c]) && After(w, [a, b, c]) == Apply(Apply(Apply(w, a), b), c)
  {
    var w1, w2 := Apply(w, a), Apply(Apply(w, a), b);
    assert [a, b, c][1..] == [b, c] && [b, c][1..] == [c] && [c][1..] == [];
    assert After(w2, [c]) == After(Apply(w2, c), []);
    assert After(w1, [b, c]) == After(w2, [c]);
  }

  /** How many creates of this call have failed. */
  ghost function Refusals(steps: seq<Step>, id: nat): nat {
    if steps == [] then 0
    else (if steps[0].CreateFails? && steps[0].id == id then 1 else 0) + Refusals(steps[1..], id)
  }

  /** The step that moves a call to where it gives up. */
  lemma StepCounts(w: World, step: Step, id: nat)
    requires Enabled(w, step) && id in w.calls
    ensures var w' := Apply(w, step);
            && id in w'.calls
            && w'.calls[id].attempt == w.calls[id].attempt + (if step.CreateFails? && step.id == id then 1 else 0)
            && (w'.calls[id].phase.GaveUp? && !w.calls[id].phase.GaveUp? ==>
                  step == LookFails(id) || (step.CreateFails? && step.id == id && w'.calls[id].attempt >= 6))
  {
  }

  /** A call gives up only when a listing fails or six creates have, whatever
      else goes on. */
  lemma {:induction false} GivesUpAfterSix(w: World, steps: seq<Step>, id: nat)
    requires IsRun(w, steps) && (id in w.calls ==> w.calls[id].phase.GaveUp? ==> w.calls[id].attempt >= 6)
    requires id in After(w, steps).calls && After(w, steps).calls[id].phase.GaveUp?
    ensures LookFails(id) in steps || (if id in w.calls then w.calls[id].attempt else 0) + Refusals(steps, id) >= 6
    decreases |steps|
  {
    if steps != [] {
      var w' := Apply(w, steps[0]);
      if id in w.calls {
        StepCounts(w, steps[0], id);
      }
      if !(id in w'.calls && w'.calls[id].phase.GaveUp? && w'.calls[id].attempt < 6) {
        GivesUpAfterSix(w', steps[1..], id);
      }
    }
  }

  /** Any call may begin, and a look at the server settles it or has it create. */
  lemma CallsLook(w: World, id: nat, parent: string, name: string)
    requires id !in w.calls
    ensures var steps := [Begin(id, parent, name), LookLive(id), StoreAndDecide(id)];
            && IsRun(w, steps) && id in After(w, steps).calls
            && var found := Find(w.Live(parent), name);
            && After(w, steps).calls[id] == Call(parent, name, 0, if found.Some? then Found(found.value) else Creating)
            && After(w, steps).cached == w.cached[parent := w.Live(parent)]
  {
    RunOfThree(w, Begin(id, parent, name), LookLive(id), StoreAndDecide(id));
  }

  /** A refused call looks again, unless it was the sixth time. If it was refused
      because another call or client made the folder, or its own create landed
      after all, it answers with that folder. */
  lemma RefusedLooksAgain(w: World, id: nat, landed: Option<string>)
    requires Inv(w) && Enabled(w, CreateFails(id, landed))
    ensures var c, w' := w.calls[id], Apply(w, CreateFails(id, landed));
            && id in w'.calls && w'.calls[id].parent == c.parent && w'.calls[id].name == c.name
            && w'.calls[id].attempt == c.attempt + 1
            && (w'.calls[id].phase == GaveUp <==> c.attempt == 5)
            && (w'.calls[id].phase == Looking <==> c.attempt < 5)
    ensures w.calls[id].attempt < 5 && Find(Apply(w, CreateFails(id, landed)).Live(w.calls[id].parent), w.calls[id].name).Some? ==>
              var steps := [CreateFails(id, landed), LookLive(id), StoreAndDecide(id)];
              && IsRun(w, steps) && id in After(w, steps).calls
              && After(w, steps).calls[id].phase
                 == Found(Find(Apply(w, CreateFails(id, landed)).Live(w.calls[id].parent), w.calls[id].name).value)
  {
    assert CallFine(w, w.calls[id]);
    if w.calls[id].attempt < 5 {
      RunOfThree(w, CreateFails(id, landed), LookLive(id), StoreAndDecide(id));
    }
  }

  /** A call that finds no such folder makes it, and answers with it. */
  lemma MissingIsMade(w: World, id: nat, uuid: string)
    requires Inv(w) && id in w.calls && w.calls[id].phase.Looking?
    requires CanCreate(w, w.calls[id].parent, w.calls[id].name)
    ensures var c, steps := w.calls[id], [LookLive(id), StoreAndDecide(id), CreateSucceeds(id, uuid)];
            && IsRun(w, steps) && id in After(w, steps).calls
            && After(w, steps).calls[id].phase == Found(Item(c.name, uuid))
            && After(w, steps).Live(c.parent) == w.Live(c.parent) + [Item(c.name, uuid)]
            && c.parent !in After(w, steps).cached
  {
    RunOfThree(w, LookLive(id), StoreAndDecide(id), CreateSucceeds(id, uuid));
  }

  /** A loser finds the winner's folder. Once the folder is there, a call that
      fetches the live listing and reads it answers with that folder. */
  lemma LoserAdopts(w: World, id: nat, item: Item)
    requires Inv(w) && id in w.calls && w.calls[id].phase.Looking?
    requires item in w.Live(w.calls[id].parent) && item.name == w.calls[id].name
    ensures IsRun(w, [LookLive(id), StoreAndDecide(id)])
    ensures var w' := After(w, [LookLive(id), StoreAndDecide(id)]);
            id in w'.calls && w'.calls[id].phase == Found(item)
  {
    OneOfAName(w.Live(w.calls[id].parent), item);
    var w1 := Apply(w, LookLive(id));
    var w2 := Apply(w1, StoreAndDecide(id));
    assert [LookLive(id), StoreAndDecide(id)][1..] == [StoreAndDecide(id)];
    assert [StoreAndDecide(id)][1..] == [];
    assert After(w1, [StoreAndDecide(id)]) == After(w2, []);
  }
}
