// api/plugins/loader.py: the background thread that retries unreachable sidecars, interleaved step by
// step with readers that take the same lock.

module SidecarRetry {
  import opened Collections
  import opened PluginRegistry

  /** Where the retry thread is. `todo` are the names left in this round, `still` those that failed in it. */
  datatype Retry =
    | Sleeping(attempt: nat, remaining: seq<string>)
    | Probing(attempt: nat, todo: seq<string>, still: seq<string>)
    | Waiting(attempt: nat, todo: seq<string>, still: seq<string>, plugin: Plugin)
    | Writing(attempt: nat, todo: seq<string>, still: seq<string>, plugin: Plugin, written: nat)
    | Finished(remaining: seq<string>)

  datatype Lock = Free | HeldByRetry | HeldByReader(reader: int)

  /** A directory looked up by a reader. */
  datatype Lookup = Lookup(id: string, dir: Option<Path>)

  /** A registry listing under way: the copied list, and the look-ups made since. */
  datatype Listing = Listing(copied: seq<Plugin>, lookups: seq<Lookup>)

  /** The shared collections, the lock, the retry thread, and the listing each reader is at. */
  datatype World = World(registry: Registry, lock: Lock, retry: Retry, listings: map<int, Listing>)

  /** The thread that takes the next step. A thread that cannot move leaves the world as it is. */
  datatype Event =
    | RetryStep
    | ReaderEnters(reader: int) | ReaderCopies(reader: int) | ReaderLooksUp(reader: int, id: string) | ReaderLeaves(reader: int)

  /** The three writes of the critical section, one at a time. */
  function WriteStep(registry: Registry, plugin: Plugin, written: nat): Registry {
    match written
    case 0 => registry.(discovered := registry.discovered + [plugin])
    case 1 => registry.(dirs := registry.dirs[plugin.id := plugin.dir])
    case _ => registry.(permissions := registry.permissions[plugin.id := Permitted(plugin)])
  }

  function RetryNext(w: World, answers: Answers): World {
    match w.retry
    case Sleeping(attempt, remaining) => w.(retry := Probing(attempt, remaining, []))
    case Probing(attempt, todo, still) =>
      if |todo| == 0 then
        w.(retry := if |still| == 0 || attempt >= RETRY_ATTEMPTS then Finished(still) else Sleeping(attempt + 1, still))
      else
        (match Probe(todo[0], answers(attempt, todo[0]))
         case Some(plugin) => w.(retry := Waiting(attempt, todo[1..], still, plugin))
         case None => w.(retry := Probing(attempt, todo[1..], still + [todo[0]])))
    case Waiting(attempt, todo, still, plugin) =>
      if w.lock.Free? then w.(lock := HeldByRetry, retry := Writing(attempt, todo, still, plugin, 0)) else w
    case Writing(attempt, todo, still, plugin, written) =>
      if written < 3 then
        w.(registry := WriteStep(w.registry, plugin, written), retry := Writing(attempt, todo, still, plugin, written + 1))
      else w.(lock := Free, retry := Probing(attempt, todo, still))
    case Finished(_) => w
  }

  function LookedUp(listing: Listing, dirs: map<string, Path>, id: string): Listing {
    listing.(lookups := listing.lookups + [Lookup(id, if id in dirs then Some(dirs[id]) else None)])
  }

  function Next(w: World, answers: Answers, event: Event): World {
    match event
    case RetryStep => RetryNext(w, answers)
    case ReaderEnters(r) => if w.lock.Free? then w.(lock := HeldByReader(r)) else w
    case ReaderCopies(r) =>
      if w.lock == HeldByReader(r) then w.(listings := w.listings[r := Listing(w.registry.discovered, [])]) else w
    case ReaderLooksUp(r, id) =>
      if w.lock == HeldByReader(r) && r in w.listings
      then w.(listings := w.listings[r := LookedUp(w.listings[r], w.registry.dirs, id)]) else w
    case ReaderLeaves(r) => if w.lock == HeldByReader(r) then w.(lock := Free) else w
  }

  function Exec(w: World, answers: Answers, events: seq<Event>): World {
    if |events| == 0 then w
    else Next(Exec(w, answers, events[..|events| - 1]), answers, events[|events| - 1])
  }

  /** `discover` has finished with the plugins `base`, and the thread starts with the names still pending. */
  function Start(base: seq<Plugin>, names: seq<string>): World {
    World(Discovered(base), Free, Sleeping(1, names), map[])
  }

  // ----- the invariant ---------------------------------------------------------------------

  /** The shared collections after `written` of the three writes for `plugin`. */
  function HalfAdded(registry: Registry, plugin: Plugin, written: nat): Registry {
    var r1 := if written > 0 then WriteStep(registry, plugin, 0) else registry;
    var r2 := if written > 1 then WriteStep(r1, plugin, 1) else r1;
    if written > 2 then WriteStep(r2, plugin, 2) else r2
  }

  /** The late plugins still to come, in order, if nothing stops the thread. */
  function Ahead(retry: Retry, answers: Answers): seq<Plugin> {
    match retry
    case Sleeping(attempt, remaining) => RetryFound(remaining, attempt, answers)
    case Probing(attempt, todo, still) => AheadInRound(attempt, todo, still, answers)
    case Waiting(attempt, todo, still, plugin) => [plugin] + AheadInRound(attempt, todo, still, answers)
    case Writing(attempt, todo, still, plugin, _) => [plugin] + AheadInRound(attempt, todo, still, answers)
    case Finished(_) => []
  }

  function AheadInRound(attempt: nat, todo: seq<string>, still: seq<string>, answers: Answers): seq<Plugin> {
    RoundFound(todo, attempt, answers) + RetryFound(still + RoundPending(todo, attempt, answers), attempt + 1, answers)
  }

  /** The names that will be given up in the end. */
  function GivenUp(retry: Retry, answers: Answers): seq<string> {
    match retry
    case Sleeping(attempt, remaining) => RetryPending(remaining, attempt, answers)
    case Finished(remaining) => remaining
    case _ => GivenUpInRound(retry.attempt, retry.todo, retry.still, answers)
  }

  function GivenUpInRound(attempt: nat, todo: seq<string>, still: seq<string>, answers: Answers): seq<string> {
    RetryPending(still + RoundPending(todo, attempt, answers), attempt + 1, answers)
  }

  /** The names the thread has not registered yet, the one it is registering included. */
  function Unregistered(retry: Retry): seq<string> {
    match retry
    case Sleeping(_, remaining) => remaining
    case Probing(_, todo, still) => still + todo
    case Waiting(_, todo, still, plugin) => still + todo + [plugin.id]
    case Writing(_, todo, still, plugin, _) => still + todo + [plugin.id]
    case Finished(remaining) => remaining
  }

  /** `late` completed registrations, all of them as `discover` followed by the same additions would leave it. */
  ghost predicate RegistryInStep(base: seq<Plugin>, late: seq<Plugin>, w: World) {
    if w.retry.Writing?
    then w.retry.written <= 3 && w.registry == HalfAdded(AddAllLate(base, late), w.retry.plugin, w.retry.written)
    else w.registry == AddAllLate(base, late)
  }

  /** The look-up was answered from the cache of `base` and the first `k` late plugins, for a `k` no less than `n`. */
  ghost predicate AnsweredSince(base: seq<Plugin>, late: seq<Plugin>, n: nat, lookup: Lookup) {
    exists k :: n <= k <= |late| && lookup.dir == DirOf(base + late[..k], lookup.id)
  }

  /** The list was copied after `n` late registrations, and all its look-ups came after that. */
  ghost predicate CopiedAfter(base: seq<Plugin>, late: seq<Plugin>, listing: Listing, n: nat) {
    && n <= |late| && listing.copied == base + late[..n]
    && forall i :: 0 <= i < |listing.lookups| ==> AnsweredSince(base, late, n, listing.lookups[i])
  }

  ghost predicate ListingInStep(base: seq<Plugin>, late: seq<Plugin>, listing: Listing) {
    exists n: nat :: CopiedAfter(base, late, listing, n)
  }

  ghost predicate ListingsInStep(base: seq<Plugin>, late: seq<Plugin>, listings: map<int, Listing>) {
    forall r :: r in listings ==> ListingInStep(base, late, listings[r])
  }

  /** The thread holds the lock exactly while it writes, and is in one of its ten rounds. */
  predicate InControl(w: World) {
    && (w.lock.HeldByRetry? <==> w.retry.Writing?)
    && (!w.retry.Finished? ==> 1 <= w.retry.attempt <= RETRY_ATTEMPTS)
  }

  ghost predicate Inv(base: seq<Plugin>, names: seq<string>, answers: Answers, late: seq<Plugin>, w: World) {
    && RegistryInStep(base, late, w)
    && InControl(w)
    && late + Ahead(w.retry, answers) == RetryFound(names, 1, answers)
    && GivenUp(w.retry, answers) == RetryPending(names, 1, answers)
    && multiset(Ids(late)) + multiset(Unregistered(w.retry)) == multiset(names)
    && ListingsInStep(base, late, w.listings)
  }

  lemma StartHolds(base: seq<Plugin>, names: seq<string>, answers: Answers)
    ensures Inv(base, names, answers, [], Start(base, names))
  {
    assert multiset(Ids([])) == multiset{};
    assert [] + RetryFound(names, 1, answers) == RetryFound(names, 1, answers);
  }

  /** The registrations completed by a step: at most the one whose lock is being released. */
  function LateAfter(late: seq<Plugin>, w: World, event: Event): seq<Plugin> {
    if event.RetryStep? && w.retry.Writing? && w.retry.written >= 3 then late + [w.retry.plugin] else late
  }

  lemma RegistryStaysInStep(base: seq<Plugin>, late: seq<Plugin>, w: World, answers: Answers, event: Event)
    requires RegistryInStep(base, late, w)
    ensures RegistryInStep(base, LateAfter(late, w, event), Next(w, answers, event))
  {
    if event.RetryStep? && w.retry.Writing? && w.retry.written == 3 {
      assert (late + [w.retry.plugin])[..|late|] == late;
    }
  }

  lemma RoundBegins(attempt: nat, remaining: seq<string>, answers: Answers)
    requires attempt <= RETRY_ATTEMPTS
    ensures AheadInRound(attempt, remaining, [], answers) == RetryFound(remaining, attempt, answers)
    ensures GivenUpInRound(attempt, remaining, [], answers) == RetryPending(remaining, attempt, answers)
  {
    assert [] + RoundPending(remaining, attempt, answers) == RoundPending(remaining, attempt, answers);
  }

  lemma RoundEnds(attempt: nat, still: seq<string>, answers: Answers)
    ensures AheadInRound(attempt, [], still, answers) == RetryFound(still, attempt + 1, answers)
    ensures GivenUpInRound(attempt, [], still, answers) == RetryPending(still, attempt + 1, answers)
    ensures |still| == 0 || attempt >= RETRY_ATTEMPTS ==>
              RetryFound(still, attempt + 1, answers) == [] && RetryPending(still, attempt + 1, answers) == still
  {
    assert still + RoundPending([], attempt, answers) == still;
  }

  lemma NameProbed(attempt: nat, todo: seq<string>, still: seq<string>, answers: Answers)
    requires todo != []
    ensures match Probe(todo[0], answers(attempt, todo[0]))
            case Some(plugin) =>
              && AheadInRound(attempt, todo, still, answers) == [plugin] + AheadInRound(attempt, todo[1..], still, answers)
              && GivenUpInRound(attempt, todo, still, answers) == GivenUpInRound(attempt, todo[1..], still, answers)
            case None =>
              && AheadInRound(attempt, todo, still, answers) == AheadInRound(attempt, todo[1..], still + [todo[0]], answers)
              && GivenUpInRound(attempt, todo, still, answers) == GivenUpInRound(attempt, todo[1..], still + [todo[0]], answers)
  {
    var rest := RoundPending(todo[1..], attempt, answers);
    assert still + ([todo[0]] + rest) == still + [todo[0]] + rest;
  }

  /** What the thread will have registered and given up in the end does not depend on the interleaving. */
  lemma OutcomeStays(late: seq<Plugin>, w: World, answers: Answers, event: Event)
    requires w.retry.Finished? || 1 <= w.retry.attempt <= RETRY_ATTEMPTS
    ensures var w' := Next(w, answers, event);
            && LateAfter(late, w, event) + Ahead(w'.retry, answers) == late + Ahead(w.retry, answers)
            && GivenUp(w'.retry, answers) == GivenUp(w.retry, answers)
  {
    if event.RetryStep? {
      match w.retry
      case Sleeping(attempt, remaining) => RoundBegins(attempt, remaining, answers);
      case Probing(attempt, todo, still) =>
        if |todo| == 0 {
          RoundEnds(attempt, still, answers);
        } else {
          NameProbed(attempt, todo, still, answers);
        }
      case Writing(attempt, todo, still, plugin, _) =>
        Associates(late, [plugin], AheadInRound(attempt, todo, still, answers));
      case _ =>
    }
  }

  lemma HeadMoves(still: seq<string>, todo: seq<string>)
    requires todo != []
    ensures multiset(still + todo[1..] + [todo[0]]) == multiset(still + todo)
    ensures still + [todo[0]] + todo[1..] == still + todo
  {
    assert todo == [todo[0]] + todo[1..];
  }

  lemma NamesStayWhileProbing(w: World, answers: Answers)
    requires w.retry.Probing? && |w.retry.todo| > 0
    ensures multiset(Unregistered(RetryNext(w, answers).retry)) == multiset(Unregistered(w.retry))
  {
    var todo, still := w.retry.todo, w.retry.still;
    HeadMoves(still, todo);
    match Probe(todo[0], answers(w.retry.attempt, todo[0]))
    case Some(plugin) =>
      assert Unregistered(RetryNext(w, answers).retry) == still + todo[1..] + [todo[0]];
    case None =>
      assert Unregistered(RetryNext(w, answers).retry) == still + [todo[0]] + todo[1..];
  }

  lemma NamesStayUntilRelease(w: World, answers: Answers)
    requires !(w.retry.Writing? && w.retry.written >= 3)
    ensures multiset(Unregistered(RetryNext(w, answers).retry)) == multiset(Unregistered(w.retry))
  {
    if w.retry.Probing? && |w.retry.todo| > 0 {
      NamesStayWhileProbing(w, answers);
    } else if w.retry.Probing? {
      assert w.retry.still + [] == w.retry.still;
    } else if w.retry.Sleeping? {
      assert [] + w.retry.remaining == w.retry.remaining;
    }
  }

  lemma NameIsRegistered(late: seq<Plugin>, unregistered: seq<string>, plugin: Plugin)
    ensures multiset(Ids(late + [plugin])) + multiset(unregistered)
         == multiset(Ids(late)) + multiset(unregistered + [plugin.id])
  {
    IdsOfBoth(late, [plugin]);
    assert Ids([plugin]) == [plugin.id];
  }

  lemma NamesStay(late: seq<Plugin>, w: World, answers: Answers, event: Event)
    ensures multiset(Ids(LateAfter(late, w, event))) + multiset(Unregistered(Next(w, answers, event).retry))
         == multiset(Ids(late)) + multiset(Unregistered(w.retry))
  {
    if event.RetryStep? {
      if w.retry.Writing? && w.retry.written >= 3 {
        NameIsRegistered(late, w.retry.still + w.retry.todo, w.retry.plugin);
      } else {
        NamesStayUntilRelease(w, answers);
      }
    } else {
      ReadersLeaveRetryAlone(w, answers, event);
    }
  }

  lemma ReadersLeaveRetryAlone(w: World, answers: Answers, event: Event)
    requires !event.RetryStep?
    ensures Next(w, answers, event).retry == w.retry && Next(w, answers, event).registry == w.registry
  {
  }

  lemma ListingStays(base: seq<Plugin>, late: seq<Plugin>, later: seq<Plugin>, listing: Listing)
    requires ListingInStep(base, late, listing) && late <= later
    ensures ListingInStep(base, later, listing)
  {
    var n: nat :| CopiedAfter(base, late, listing, n);
    assert later[..n] == late[..n];
    forall i | 0 <= i < |listing.lookups| ensures AnsweredSince(base, later, n, listing.lookups[i]) {
      var k :| n <= k <= |late| && listing.lookups[i].dir == DirOf(base + late[..k], listing.lookups[i].id);
      assert later[..k] == late[..k];
    }
    assert CopiedAfter(base, later, listing, n);
  }

  /** In a critical section of a reader the registry is what the completed registrations have made of it. */
  lemma CopyInStep(base: seq<Plugin>, late: seq<Plugin>)
    ensures ListingInStep(base, late, Listing(AddAllLate(base, late).discovered, []))
  {
    LateKeepsDirIndex(base, late);
    assert late[..|late|] == late;
    assert CopiedAfter(base, late, Listing(base + late, []), |late|);
  }

  lemma LookupInStep(base: seq<Plugin>, late: seq<Plugin>, listing: Listing, id: string)
    requires ListingInStep(base, late, listing)
    ensures ListingInStep(base, late, LookedUp(listing, AddAllLate(base, late).dirs, id))
  {
    var n: nat :| CopiedAfter(base, late, listing, n);
    LateKeepsDirIndex(base, late);
    assert late[..|late|] == late;
    var more := LookedUp(listing, AddAllLate(base, late).dirs, id);
    forall i | 0 <= i < |more.lookups| ensures AnsweredSince(base, late, n, more.lookups[i]) {
      if i == |listing.lookups| {
        assert more.lookups[i].dir == DirOf(base + late[..|late|], id);
      } else {
        assert more.lookups[i] == listing.lookups[i];
      }
    }
    assert CopiedAfter(base, late, more, n);
  }

  lemma ListingsStayInStep(base: seq<Plugin>, late: seq<Plugin>, w: World, answers: Answers, event: Event)
    requires RegistryInStep(base, late, w) && ListingsInStep(base, late, w.listings) && InControl(w)
    ensures ListingsInStep(base, LateAfter(late, w, event), Next(w, answers, event).listings)
  {
    var later, listings := LateAfter(late, w, event), Next(w, answers, event).listings;
    forall r | r in listings ensures ListingInStep(base, later, listings[r]) {
      if event == ReaderCopies(r) && w.lock == HeldByReader(r) {
        CopyInStep(base, late);
      } else {
        if event.ReaderLooksUp? && event.reader == r && w.lock == HeldByReader(r) {
          LookupInStep(base, late, w.listings[r], event.id);
        } else {
          ListingStays(base, late, later, w.listings[r]);
        }
      }
    }
  }

  lemma ControlStays(w: World, answers: Answers, event: Event)
    requires InControl(w) && (w.retry.Writing? ==> w.retry.written <= 3)
    ensures InControl(Next(w, answers, event))
  {
  }

  lemma InvKept(base: seq<Plugin>, names: seq<string>, answers: Answers, late: seq<Plugin>, w: World, event: Event)
    requires Inv(base, names, answers, late, w)
    ensures Inv(base, names, answers, LateAfter(late, w, event), Next(w, answers, event))
  {
    RegistryStaysInStep(base, late, w, answers, event);
    ControlStays(w, answers, event);
    OutcomeStays(late, w, answers, event);
    NamesStay(late, w, answers, event);
    ListingsStayInStep(base, late, w, answers, event);
  }

  /** The registrations completed in a run so far. */
  function Completed(w: World, answers: Answers, events: seq<Event>): seq<Plugin> {
    if |events| == 0 then []
    else
      var earlier := events[..|events| - 1];
      LateAfter(Completed(w, answers, earlier), Exec(w, answers, earlier), events[|events| - 1])
  }

  lemma {:induction false} InvHolds(base: seq<Plugin>, names: seq<string>, answers: Answers, events: seq<Event>)
    ensures var w := Start(base, names);
            Inv(base, names, answers, Completed(w, answers, events), Exec(w, answers, events))
  {
    if |events| == 0 {
      StartHolds(base, names, answers);
    } else {
      var earlier, w := events[..|events| - 1], Start(base, names);
      InvHolds(base, names, answers, earlier);
      InvKept(base, names, answers, Completed(w, answers, earlier), Exec(w, answers, earlier), events[|events| - 1]);
    }
  }

  // ----- what holds in every reachable state -----------------------------------------------

  /**
   * Whenever the retry thread does not hold the lock, the list, the directory cache and the permissions
   * agree: they are what `discover` and the completed registrations, one after the other, produce. Every
   * listing has copied such a list, and each of its look-ups was answered from one at least as new.
   */
  lemma ReadersSeeWholeRegistrations(base: seq<Plugin>, names: seq<string>, answers: Answers, events: seq<Event>)
    ensures var w, late := Exec(Start(base, names), answers, events), Completed(Start(base, names), answers, events);
            && (!w.lock.HeldByRetry? ==> w.registry == AddAllLate(base, late) && w.registry.dirs == DirIndex(w.registry.discovered))
            && (forall r :: r in w.listings ==> ListingInStep(base, late, w.listings[r]))
  {
    InvHolds(base, names, answers, events);
    LateKeepsDirIndex(base, Completed(Start(base, names), answers, events));
  }

  /** The look-up was answered from the cache of `plugins`, a list between the copied one and the whole. */
  ghost predicate AnsweredFrom(copied: seq<Plugin>, plugins: seq<Plugin>, whole: seq<Plugin>, lookup: Lookup) {
    copied <= plugins && plugins <= whole && lookup.dir == DirOf(plugins, lookup.id)
  }

  /**
   * Copy and look-ups are separate critical sections, so an entry can be shown with a directory not its own.
   * In every run, the look-up for a copied plugin does so exactly when, at the time of the look-up, the last
   * registration of its id was another plugin with a different directory.
   */
  lemma EntryShownElsewhereIff(base: seq<Plugin>, names: seq<string>, answers: Answers, events: seq<Event>,
                               r: int, i: nat, j: nat)
    requires var w := Exec(Start(base, names), answers, events);
             && r in w.listings && i < |w.listings[r].copied| && j < |w.listings[r].lookups|
             && w.listings[r].lookups[j].id == w.listings[r].copied[i].id
    ensures var w, late := Exec(Start(base, names), answers, events), Completed(Start(base, names), answers, events);
            var copied, lookup := w.listings[r].copied, w.listings[r].lookups[j];
            exists plugins :: AnsweredFrom(copied, plugins, base + late, lookup)
                              && (lookup.dir != Some(copied[i].dir) <==> exists m: nat :: Superseded(plugins, i, m))
  {
    ReadersSeeWholeRegistrations(base, names, answers, events);
    var w, late := Exec(Start(base, names), answers, events), Completed(Start(base, names), answers, events);
    var listing := w.listings[r];
    var plugins := LookupSource(base, late, listing, j);
    ShownElsewhereIff(listing.copied, plugins, i);
  }

  lemma LookupSource(base: seq<Plugin>, late: seq<Plugin>, listing: Listing, j: nat) returns (plugins: seq<Plugin>)
    requires ListingInStep(base, late, listing) && j < |listing.lookups|
    ensures AnsweredFrom(listing.copied, plugins, base + late, listing.lookups[j])
  {
    var n: nat :| CopiedAfter(base, late, listing, n);
    assert AnsweredSince(base, late, n, listing.lookups[j]);
    var k :| n <= k <= |late| && listing.lookups[j].dir == DirOf(base + late[..k], listing.lookups[j].id);
    plugins := base + late[..k];
    assert late[..n] <= late[..k];
    assert base + late[..n] <= base + late[..k] <= base + late;
  }

  /**
   * Registered and unregistered names always partition the names the thread was started with, so no
   * name is registered twice.
   */
  lemma NoNameTwice(base: seq<Plugin>, names: seq<string>, answers: Answers, events: seq<Event>)
    requires NoDuplicates(names)
    ensures var w, late := Exec(Start(base, names), answers, events), Completed(Start(base, names), answers, events);
            && multiset(Ids(late)) + multiset(Unregistered(w.retry)) == multiset(names)
            && NoDuplicates(Ids(late) + Unregistered(w.retry))
  {
    InvHolds(base, names, answers, events);
    var w, late := Exec(Start(base, names), answers, events), Completed(Start(base, names), answers, events);
    var all := Ids(late) + Unregistered(w.retry);
    forall i, j | 0 <= i < j < |all| ensures all[i] != all[j] {
      if all[i] == all[j] {
        TwiceInSeq(all, i, j);
        OnceInSeq(names, all[i]);
      }
    }
  }

  lemma TwiceInSeq<T>(s: seq<T>, i: nat, j: nat)
    requires i < j < |s| && s[i] == s[j]
    ensures multiset(s)[s[i]] >= 2
  {
    assert s == s[..j] + [s[j]] + s[j + 1..];
    assert s[..j][i] == s[i];
    assert s[i] in multiset(s[..j]);
  }

  lemma {:induction false} OnceInSeq<T>(s: seq<T>, x: T)
    requires NoDuplicates(s)
    ensures multiset(s)[x] <= 1
  {
    if s != [] {
      OnceInSeq(s[1..], x);
      assert s == [s[0]] + s[1..];
      assert s[0] !in s[1..] by {
        assert forall i :: 0 <= i < |s[1..]| ==> s[1..][i] == s[i + 1];
      }
    }
  }

  /**
   * Whatever the readers do in between, a finished thread has registered the same plugins in the same
   * order, and given up the same names, as the uninterrupted loop.
   */
  lemma FinishedAsUninterrupted(base: seq<Plugin>, names: seq<string>, answers: Answers, events: seq<Event>)
    requires Exec(Start(base, names), answers, events).retry.Finished?
    ensures var w := Exec(Start(base, names), answers, events);
            && w.registry == AddAllLate(base, RetryFound(names, 1, answers))
            && w.retry.remaining == RetryPending(names, 1, answers)
  {
    InvHolds(base, names, answers, events);
    var late := Completed(Start(base, names), answers, events);
    assert late + [] == late;
  }

  // ----- termination -----------------------------------------------------------------------

  /** An upper bound on the steps the retry thread still takes. */
  function StepsLeft(retry: Retry): nat
    requires retry.Finished? || retry.attempt <= RETRY_ATTEMPTS
  {
    match retry
    case Sleeping(attempt, remaining) => RoundsAfter(attempt, |remaining|) + 6 * |remaining| + 2
    case Probing(attempt, todo, still) => RoundsAfter(attempt, |still| + |todo|) + 6 * |todo| + 1
    case Waiting(attempt, todo, still, _) => RoundsAfter(attempt, |still| + |todo|) + 6 * |todo| + 6
    case Writing(attempt, todo, still, _, written) =>
      RoundsAfter(attempt, |still| + |todo|) + 6 * |todo| + (if written < 3 then 5 - written else 2)
    case Finished(_) => 0
  }

  function RoundsAfter(attempt: nat, names: nat): nat
    requires attempt <= RETRY_ATTEMPTS
  {
    (RETRY_ATTEMPTS - attempt) * (6 * names + 2)
  }

  lemma RoundsShrink(attempt: nat, fewer: nat, more: nat)
    requires attempt <= RETRY_ATTEMPTS && fewer <= more
    ensures RoundsAfter(attempt, fewer) <= RoundsAfter(attempt, more)
  {
  }

  lemma OneRoundLess(attempt: nat, names: nat)
    requires attempt < RETRY_ATTEMPTS
    ensures RoundsAfter(attempt + 1, names) + 6 * names + 2 == RoundsAfter(attempt, names)
  {
  }

  /**
   * Every step of the retry thread brings it nearer to its end, unless it waits for a reader to leave
   * or is done; steps of readers take nothing back.
   */
  lemma RetryMakesProgress(w: World, answers: Answers, event: Event)
    requires w.retry.Finished? || w.retry.attempt <= RETRY_ATTEMPTS
    ensures var w' := Next(w, answers, event);
            && (w'.retry.Finished? || w'.retry.attempt <= RETRY_ATTEMPTS)
            && (if event.RetryStep? && !w.retry.Finished? && !(w.retry.Waiting? && !w.lock.Free?)
                then StepsLeft(w'.retry) < StepsLeft(w.retry)
                else w'.retry == w.retry)
  {
    if event.RetryStep? {
      match w.retry
      case Probing(attempt, todo, still) =>
        if |todo| == 0 {
          if attempt < RETRY_ATTEMPTS {
            OneRoundLess(attempt, |still|);
          }
        } else {
          RoundsShrink(attempt, |still| + |todo| - 1, |still| + |todo|);
        }
      case _ =>
    }
  }

  /** The retry thread takes a step that moves it. */
  predicate Moves(w: World, event: Event) {
    event.RetryStep? && !w.retry.Finished? && !(w.retry.Waiting? && !w.lock.Free?)
  }

  function MovesIn(w: World, answers: Answers, events: seq<Event>): nat {
    if |events| == 0 then 0
    else
      var earlier := events[..|events| - 1];
      MovesIn(w, answers, earlier) + (if Moves(Exec(w, answers, earlier), events[|events| - 1]) then 1 else 0)
  }

  /** Over a whole run, ten rounds bound the thread's steps; it never begins an eleventh. */
  lemma {:induction false} TenRoundsAtMost(base: seq<Plugin>, names: seq<string>, answers: Answers, events: seq<Event>)
    ensures var w := Exec(Start(base, names), answers, events);
            && (w.retry.Finished? || w.retry.attempt <= RETRY_ATTEMPTS)
            && MovesIn(Start(base, names), answers, events) + StepsLeft(w.retry) <= RETRY_ATTEMPTS * (6 * |names| + 2)
  {
    if |events| > 0 {
      var earlier := events[..|events| - 1];
      TenRoundsAtMost(base, names, answers, earlier);
      RetryMakesProgress(Exec(Start(base, names), answers, earlier), answers, events[|events| - 1]);
    }
  }
}
