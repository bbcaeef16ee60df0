/** The price table: generations written under a fresh prefix, activated by one metadata write,
    and read through a memo (src/pricing/dynamo_catalog.py, src/runtime/handlers.py:429-478).

    Any number of sync runs may write, fail, crash or activate between two steps of a reader.
    Every lookup still answers what the table holds for the generation the reader adopted, and
    what it held when that generation was activated. */
module PriceCache {
  import opened Templates

  type Price = string

  datatype Metadata = Metadata(generation: string, version: string)

  /** The price rows by storage key, and the metadata row. */
  datatype Table = Table(rows: map<string, Price>, metadata: Option<Metadata>)

  function StorageKey(generation: string, key: string): string {
    if generation == "" then key else generation + "#" + key
  }

  function Fetch(rows: map<string, Price>, generation: string, key: string): Option<Price> {
    var pk := StorageKey(generation, key);
    if pk in rows then Some(rows[pk]) else None
  }

  // -- whose row a storage key is -----------------------------------------------------------

  /** The part of a key before its first '#': a generation, or the service code of a bare key. */
  function Head(pk: string): string {
    if pk == "" || pk[0] == '#' then "" else [pk[0]] + Head(pk[1..])
  }

  lemma {:induction false} HeadOfPrefix(prefix: string, rest: string)
    requires '#' !in prefix
    ensures Head(prefix + "#" + rest) == prefix
  {
    var pk := prefix + "#" + rest;
    if prefix != "" {
      HeadOfPrefix(prefix[1..], rest);
      assert pk[1..] == prefix[1..] + "#" + rest;
      assert pk[0] == prefix[0];
    } else {
      assert pk[0] == '#';
    }
  }

  // -- sync runs ------------------------------------------------------------------------------

  datatype RunPhase = Writing | Activated | Dead

  /** A table and the sync runs on it, by generation. `frozen` remembers the rows each generation
      had when it was activated. `services` are the service codes that price keys start with. */
  datatype Sync = Sync(table: Table, runs: map<string, RunPhase>, frozen: map<string, map<string, Price>>,
      services: set<string>)

  datatype SyncStep =
    | Start(generation: string)
    | Put(generation: string, key: string, price: Price)
    | Activate(generation: string, version: string)
    | Die(generation: string)

  /** A run writes until it activates its generation or dies; generations are fresh identifiers. */
  predicate CanSync(s: Sync, e: SyncStep) {
    match e
    case Start(g) => g !in s.runs && g != "" && '#' !in g && g !in s.services
    case Put(g, _, _) => g in s.runs && s.runs[g] == Writing
    case Activate(g, _) => g in s.runs && s.runs[g] == Writing
    case Die(g) => g in s.runs && s.runs[g] == Writing
  }

  function DoSync(s: Sync, e: SyncStep): Sync
    requires CanSync(s, e)
  {
    match e
    case Start(g) => s.(runs := s.runs[g := Writing])
    case Put(g, key, price) => s.(table := s.table.(rows := s.table.rows[StorageKey(g, key) := price]))
    case Activate(g, version) =>
      s.(runs := s.runs[g := Activated], table := s.table.(metadata := Some(Metadata(g, version))),
         frozen := s.frozen[g := s.table.rows])
    case Die(g) => s.(runs := s.runs[g := Dead])
  }

  /** Prices a reader of this generation may ask for. */
  predicate Askable(s: Sync, key: string) {
    Head(key) in s.services
  }

  predicate SyncOk(s: Sync) {
    && (forall g :: g in s.runs ==> g != "" && '#' !in g && g !in s.services)
    && (forall g :: g in s.frozen ==> g in s.runs && s.runs[g] == Activated)
    && (s.table.metadata.Some? && s.table.metadata.value.generation != "" ==>
        s.table.metadata.value.generation in s.frozen)
  }

  /** Writing one generation leaves every other generation, and the bare keys, alone. */
  lemma PutElsewhere(s: Sync, g: string, k: string, price: Price, generation: string, key: string)
    requires SyncOk(s) && g in s.runs && generation != g && Askable(s, key) && '#' !in generation
    ensures Fetch(s.table.rows[StorageKey(g, k) := price], generation, key) == Fetch(s.table.rows, generation, key)
  {
    HeadOfPrefix(g, k);
    if generation != "" {
      HeadOfPrefix(generation, key);
    }
  }

  // -- a reader ---------------------------------------------------------------------------------

  datatype Reader = Reader(
    version: Option<string>, generation: string,
    memo: map<string, Option<Price>>, misses: seq<string>)

  const NEW_READER := Reader(None, "", map[], [])

  function Refreshed(r: Reader, t: Table): Reader {
    var meta := if t.metadata.Some? then t.metadata.value else Metadata("", "unknown");
    if meta.generation != r.generation || Some(meta.version) != r.version
    then Reader(Some(meta.version), meta.generation, map[], [])
    else r
  }

  function Ready(r: Reader, t: Table): Reader {
    if r.version.None? then Refreshed(r, t) else r
  }

  function LookedUp(r: Reader, t: Table, key: string): Reader {
    var x := Ready(r, t);
    if key in x.memo then x
    else
      var record := Fetch(t.rows, x.generation, key);
      x.(memo := x.memo[key := record], misses := if record.None? then x.misses + [key] else x.misses)
  }

  function Answer(r: Reader, t: Table, key: string): Option<Price> {
    LookedUp(r, t, key).memo[key]
  }

  /** Everything memoised is what the table holds for the adopted generation. */
  predicate Coherent(r: Reader, t: Table) {
    forall k :: k in r.memo ==> r.memo[k] == Fetch(t.rows, r.generation, k)
  }

  /** The reader as it runs; a failed read raises and leaves it as it was. */
  class DynamoPriceCatalog {
    var version: Option<string>
    var generation: string
    var memo: map<string, Option<Price>>
    var misses: seq<string>

    function View(): Reader
      reads this
    {
      Reader(version, generation, memo, misses)
    }

    constructor ()
      ensures View() == NEW_READER
    {
      version, generation, memo, misses := None, "", map[], [];
    }

    method Refresh(table: Table) returns (raised: bool)
      modifies this
      ensures View() == if raised then old(View()) else Refreshed(old(View()), table)
    {
      raised := *;
      if raised {
        return;
      }
      var meta := if table.metadata.Some? then table.metadata.value else Metadata("", "unknown");
      if meta.generation != generation || Some(meta.version) != version {
        memo, misses := map[], [];
        generation, version := meta.generation, Some(meta.version);
      }
    }

    /** Two reads at most: the metadata row when nothing was adopted yet, and the price row. */
    method Lookup(table: Table, key: string) returns (record: Option<Price>, raised: bool)
      modifies this
      ensures !raised ==> View() == LookedUp(old(View()), table, key) && record == Answer(old(View()), table, key)
      ensures raised ==> View() == old(View()) || View() == Ready(old(View()), table)
      ensures old(Coherent(View(), table)) ==> Coherent(View(), table)
      ensures old(Coherent(View(), table)) && !raised ==> record == Fetch(table.rows, generation, key)
    {
      record := None;
      if version.None? {
        raised := Refresh(table);
        if raised {
          return;
        }
      }
      if key in memo {
        return memo[key], false;
      }
      raised := *;
      if raised {
        return;
      }
      record := Fetch(table.rows, generation, key);
      if record.None? {
        misses := misses + [key];
      }
      memo := memo[key := record];
    }
  }

  // -- interleaved runs ---------------------------------------------------------------------------

  datatype Event =
    | SyncEvent(step: SyncStep)
    | RefreshEvent
    | LookupEvent(key: string)

  datatype World = World(sync: Sync, reader: Reader)

  predicate Possible(w: World, e: Event) {
    match e
    case SyncEvent(step) => CanSync(w.sync, step)
    case RefreshEvent => true
    case LookupEvent(key) => Askable(w.sync, key)
  }

  function Next(w: World, e: Event): World
    requires Possible(w, e)
  {
    match e
    case SyncEvent(step) => w.(sync := DoSync(w.sync, step))
    case RefreshEvent => w.(reader := Refreshed(w.reader, w.sync.table))
    case LookupEvent(key) => w.(reader := LookedUp(w.reader, w.sync.table, key))
  }

  /** What holds between any two steps of anyone. */
  ghost predicate WorldOk(w: World) {
    && SyncOk(w.sync)
    && (w.reader.generation == "" || w.reader.generation in w.sync.frozen)
    && (forall k :: k in w.reader.memo ==> Askable(w.sync, k))
    && Coherent(w.reader, w.sync.table)
    && forall g, k :: g in w.sync.frozen && Askable(w.sync, k) ==>
        Fetch(w.sync.table.rows, g, k) == Fetch(w.sync.frozen[g], g, k)
  }

  lemma NextOk(w: World, e: Event)
    requires WorldOk(w) && Possible(w, e)
    ensures WorldOk(Next(w, e))
  {
    if e.SyncEvent? && e.step.Put? {
      var g, key, price := e.step.generation, e.step.key, e.step.price;
      forall k | k in w.reader.memo
        ensures Fetch(Next(w, e).sync.table.rows, w.reader.generation, k) ==
            Fetch(w.sync.table.rows, w.reader.generation, k)
      {
        PutElsewhere(w.sync, g, key, price, w.reader.generation, k);
      }
      forall h, k | h in w.sync.frozen && Askable(w.sync, k)
        ensures Fetch(Next(w, e).sync.table.rows, h, k) == Fetch(w.sync.table.rows, h, k)
      {
        PutElsewhere(w.sync, g, key, price, h, k);
      }
    }
  }

  function RunWorld(w: World, es: seq<Event>): Option<World> {
    if es == [] then Some(w)
    else
      var before := RunWorld(w, es[..|es| - 1]);
      if before.None? || !Possible(before.value, es[|es| - 1]) then None
      else Some(Next(before.value, es[|es| - 1]))
  }

  /** Before the first generation: no metadata row, or one from the time of bare keys. */
  predicate InitialWorld(w: World) {
    && w.reader == NEW_READER && w.sync.runs == map[] && w.sync.frozen == map[]
    && (w.sync.table.metadata.Some? ==> w.sync.table.metadata.value.generation == "")
  }

  lemma {:induction false} RunOk(w: World, es: seq<Event>)
    requires InitialWorld(w) && RunWorld(w, es).Some?
    ensures WorldOk(RunWorld(w, es).value)
  {
    if es != [] {
      RunOk(w, es[..|es| - 1]);
      NextOk(RunWorld(w, es[..|es| - 1]).value, es[|es| - 1]);
    }
  }

  /** In every interleaving a lookup answers what the table holds for the adopted generation, and,
      once a generation is adopted, what that generation held when it was activated. */
  lemma LookupReadsAdoptedGeneration(w: World, es: seq<Event>, key: string)
    requires InitialWorld(w) && RunWorld(w, es).Some? && Askable(RunWorld(w, es).value.sync, key)
    ensures var x := RunWorld(w, es).value;
            var g := Ready(x.reader, x.sync.table).generation;
            && Answer(x.reader, x.sync.table, key) == Fetch(x.sync.table.rows, g, key)
            && (g != "" ==>
                  && g in x.sync.frozen
                  && Answer(x.reader, x.sync.table, key) == Fetch(x.sync.frozen[g], g, key))
  {
    RunOk(w, es);
  }

  /** Between two refreshes nothing that sync runs do changes a reader's answer. */
  lemma {:induction false} AnswersAreStable(w: World, es: seq<Event>, key: string)
    requires WorldOk(w) && w.reader.version.Some? && Askable(w.sync, key) && RunWorld(w, es).Some?
    requires RefreshEvent !in es
    ensures var x := RunWorld(w, es).value;
            && WorldOk(x) && x.sync.services == w.sync.services
            && x.reader.version == w.reader.version && x.reader.generation == w.reader.generation
            && Answer(x.reader, x.sync.table, key) == Answer(w.reader, w.sync.table, key)
  {
    if es != [] {
      var front, e := es[..|es| - 1], es[|es| - 1];
      assert e in es && forall f :: f in front ==> f in es;
      AnswersAreStable(w, front, key);
      var before := RunWorld(w, front).value;
      NextOk(before, e);
      if e.SyncEvent? && e.step.Put? {
        PutElsewhere(before.sync, e.step.generation, e.step.key, e.step.price, before.reader.generation, key);
      }
    }
  }

  // -- a run that never activates leaves no trace --------------------------------------------------

  predicate OfRun(e: Event, g: string) {
    e.SyncEvent? && e.step.generation == g
  }

  /** The events without those of the run that writes generation g. */
  function Erase(es: seq<Event>, g: string): seq<Event> {
    if es == [] then []
    else
      var front, last := Erase(es[..|es| - 1], g), es[|es| - 1];
      if OfRun(last, g) then front else front + [last]
  }

  predicate NeverActivates(es: seq<Event>, g: string) {
    forall e :: e in es && OfRun(e, g) ==> !e.step.Activate?
  }

  /** The same world but for the run of generation g and its rows. */
  ghost predicate Alike(w: World, v: World, g: string) {
    && w.reader == v.reader && w.sync.services == v.sync.services && w.sync.table.metadata == v.sync.table.metadata
    && w.sync.frozen.Keys == v.sync.frozen.Keys && g !in w.sync.frozen
    && (forall h :: h != g ==> (h in w.sync.runs <==> h in v.sync.runs))
    && (forall h :: h != g && h in w.sync.runs ==> w.sync.runs[h] == v.sync.runs[h])
    && SameRows(w, v, g)
  }

  ghost predicate SameRows(w: World, v: World, g: string) {
    forall h, k :: h != g && '#' !in h && Askable(w.sync, k) ==>
        Fetch(w.sync.table.rows, h, k) == Fetch(v.sync.table.rows, h, k)
  }

  lemma AlikeSkips(w: World, v: World, e: Event, g: string)
    requires WorldOk(w) && Alike(w, v, g) && Possible(w, e) && OfRun(e, g) && !e.step.Activate?
    ensures Alike(Next(w, e), v, g)
  {
    if e.step.Put? {
      forall h, k | h != g && '#' !in h && Askable(w.sync, k)
        ensures Fetch(Next(w, e).sync.table.rows, h, k) == Fetch(v.sync.table.rows, h, k)
      {
        PutElsewhere(w.sync, g, e.step.key, e.step.price, h, k);
      }
    }
  }

  lemma AlikeSteps(w: World, v: World, e: Event, g: string)
    requires WorldOk(w) && WorldOk(v) && Alike(w, v, g) && Possible(w, e) && !OfRun(e, g) && g != ""
    ensures Possible(v, e) && Alike(Next(w, e), Next(v, e), g)
  {
    match e
    case SyncEvent(step) =>
      forall h, k | h != g && '#' !in h && Askable(w.sync, k)
        ensures Fetch(Next(w, e).sync.table.rows, h, k) == Fetch(Next(v, e).sync.table.rows, h, k)
      {
        assert Fetch(w.sync.table.rows, h, k) == Fetch(v.sync.table.rows, h, k);
      }
    case RefreshEvent =>
    case LookupEvent(key) => AlikeLookup(w, v, key, g);
  }

  lemma AlikeLookup(w: World, v: World, key: string, g: string)
    requires WorldOk(w) && Alike(w, v, g) && Askable(w.sync, key) && g != ""
    ensures LookedUp(w.reader, w.sync.table, key) == LookedUp(v.reader, v.sync.table, key)
    ensures Answer(w.reader, w.sync.table, key) == Answer(v.reader, v.sync.table, key)
  {
    var h := Ready(w.reader, w.sync.table).generation;
    assert h == "" || h in w.sync.frozen;
    assert h != g && '#' !in h;
  }

  /** Deleting from a history all steps of a run that never activates changes nothing that any reader
      sees, at any point and across any refreshes: not its state and not one answer. */
  lemma {:induction false} UnhealthyRunIsInvisible(w: World, es: seq<Event>, g: string)
    requires WorldOk(w) && g != "" && g !in w.sync.frozen && RunWorld(w, es).Some? && NeverActivates(es, g)
    ensures RunWorld(w, Erase(es, g)).Some?
    ensures var x, y := RunWorld(w, es).value, RunWorld(w, Erase(es, g)).value;
            && WorldOk(x) && WorldOk(y) && Alike(x, y, g)
            && forall key :: Askable(x.sync, key) ==>
                 Answer(x.reader, x.sync.table, key) == Answer(y.reader, y.sync.table, key)
  {
    if es != [] {
      var front, e := es[..|es| - 1], es[|es| - 1];
      assert e in es && forall f :: f in front ==> f in es;
      UnhealthyRunIsInvisible(w, front, g);
      var x, y := RunWorld(w, front).value, RunWorld(w, Erase(front, g)).value;
      NextOk(x, e);
      if OfRun(e, g) {
        AlikeSkips(x, y, e, g);
      } else {
        AlikeSteps(x, y, e, g);
        NextOk(y, e);
        assert (Erase(front, g) + [e])[..|Erase(front, g)|] == Erase(front, g);
      }
    }
    var x, y := RunWorld(w, es).value, RunWorld(w, Erase(es, g)).value;
    forall key | Askable(x.sync, key)
      ensures Answer(x.reader, x.sync.table, key) == Answer(y.reader, y.sync.table, key)
    {
      AlikeLookup(x, y, key, g);
    }
  }

  // -- what was written is what is read ----------------------------------------------------------

  predicate IsPut(e: Event, g: string, key: string) {
    e.SyncEvent? && e.step.Put? && e.step.generation == g && e.step.key == key
  }

  /** Event i is the last that puts a price under this key of generation g. */
  predicate LastPut(es: seq<Event>, i: nat, g: string, key: string) {
    i < |es| && IsPut(es[i], g, key) && forall j :: i < j < |es| ==> !IsPut(es[j], g, key)
  }

  /** The answer for a key is the price put last under it, and nothing when none was put. */
  ghost predicate AnswersPuts(es: seq<Event>, g: string, key: string, answer: Option<Price>) {
    && (forall i: nat :: LastPut(es, i, g, key) ==> answer == Some(es[i].step.price))
    && (answer == None <==> forall i :: 0 <= i < |es| ==> !IsPut(es[i], g, key))
  }

  /** No row of the table belongs to this generation yet. */
  predicate Unwritten(rows: map<string, Price>, g: string) {
    forall pk :: pk in rows ==> !StartsWith(pk, g + "#")
  }

  lemma SameStorageKey(g: string, h: string, a: string, b: string)
    requires '#' !in g && '#' !in h && g != "" && h != "" && StorageKey(g, a) == StorageKey(h, b)
    ensures g == h && a == b
  {
    HeadOfPrefix(g, a);
    HeadOfPrefix(h, b);
    assert (g + "#" + a)[|g| + 1..] == a && (h + "#" + b)[|h| + 1..] == b;
  }

  /** A row of a generation holds what was put last under its key. */
  lemma {:induction false} RowsHoldPuts(w: World, es: seq<Event>, g: string, key: string)
    requires WorldOk(w) && RunWorld(w, es).Some? && g != "" && '#' !in g && Unwritten(w.sync.table.rows, g)
    ensures WorldOk(RunWorld(w, es).value)
    ensures AnswersPuts(es, g, key, RowUnder(RunWorld(w, es).value, g + "#" + key))
  {
    var pk := g + "#" + key;
    if es == [] {
      assert pk[..|g + "#"|] == g + "#";
    } else {
      var n := |es| - 1;
      var front, e := es[..n], es[n];
      RowsHoldPuts(w, front, g, key);
      var before := RunWorld(w, front).value;
      NextOk(before, e);
      if IsPut(e, g, key) {
        PutAnswers(es, g, key);
      } else {
        OtherEventsKeep(before, e, g, key);
        PutsCarryOver(front, es, g, key, RowUnder(before, pk));
      }
    }
  }

  function RowUnder(w: World, pk: string): Option<Price> {
    if pk in w.sync.table.rows then Some(w.sync.table.rows[pk]) else None
  }

  lemma OtherEventsKeep(w: World, e: Event, g: string, key: string)
    requires WorldOk(w) && Possible(w, e) && !IsPut(e, g, key) && g != "" && '#' !in g
    ensures RowUnder(Next(w, e), g + "#" + key) == RowUnder(w, g + "#" + key)
  {
    if e.SyncEvent? && e.step.Put? && StorageKey(e.step.generation, e.step.key) == g + "#" + key {
      SameStorageKey(e.step.generation, g, e.step.key, key);
      assert false;
    }
  }

  lemma PutAnswers(es: seq<Event>, g: string, key: string)
    requires es != [] && IsPut(es[|es| - 1], g, key)
    ensures AnswersPuts(es, g, key, Some(es[|es| - 1].step.price))
  {
    var n := |es| - 1;
    assert forall i: nat :: i < n ==> !LastPut(es, i, g, key);
    assert IsPut(es[n], g, key);
  }

  lemma PutsCarryOver(front: seq<Event>, es: seq<Event>, g: string, key: string, answer: Option<Price>)
    requires |es| == |front| + 1 && es[..|front|] == front && !IsPut(es[|front|], g, key)
    requires AnswersPuts(front, g, key, answer)
    ensures AnswersPuts(es, g, key, answer)
  {
    var n := |front|;
    forall i: nat | LastPut(es, i, g, key)
      ensures LastPut(front, i, g, key) && es[i] == front[i]
    {
      assert i != n && es[i] == es[..n][i];
      forall j | i < j < n
        ensures !IsPut(front[j], g, key)
      {
        assert es[j] == es[..n][j];
      }
    }
    forall i | 0 <= i < n
      ensures es[i] == front[i]
    {
      assert es[i] == es[..n][i];
    }
  }

  /** A reader that refreshes while generation g is active answers, until its next refresh, the price that
      g's run put last under the key, and nothing exactly when the run put none. */
  lemma PublishedPricesAreRead(w: World, es: seq<Event>, later: seq<Event>, g: string, version: string, key: string)
    requires WorldOk(w) && g != "" && '#' !in g && Unwritten(w.sync.table.rows, g) && Askable(w.sync, key)
    requires RunWorld(w, es).Some? && RunWorld(w, es).value.sync.table.metadata == Some(Metadata(g, version))
    requires RefreshEvent !in later && RunWorld(Next(RunWorld(w, es).value, RefreshEvent), later).Some?
    ensures var x := RunWorld(Next(RunWorld(w, es).value, RefreshEvent), later).value;
            AnswersPuts(es, g, key, Answer(x.reader, x.sync.table, key))
  {
    var active := RunWorld(w, es).value;
    RowsHoldPuts(w, es, g, key);
    SameServices(w, es);
    NextOk(active, RefreshEvent);
    AnswersAreStable(Next(active, RefreshEvent), later, key);
  }

  lemma {:induction false} SameServices(w: World, es: seq<Event>)
    requires RunWorld(w, es).Some?
    ensures RunWorld(w, es).value.sync.services == w.sync.services
  {
    if es != [] {
      SameServices(w, es[..|es| - 1]);
    }
  }

  // -- one sync run --------------------------------------------------------------------------------

  /** What PriceSync.run delivers for one region. */
  datatype RegionResult = RegionResult(prices: seq<(string, Price)>, healthy: bool, version: string)

  /** The rows after these puts; a repeated key keeps the last price. */
  function PutAll(rows: map<string, Price>, generation: string, prices: seq<(string, Price)>): map<string, Price> {
    if prices == [] then rows
    else
      var (key, price) := prices[|prices| - 1];
      PutAll(rows, generation, prices[..|prices| - 1])[StorageKey(generation, key) := price]
  }

  function PutRegions(rows: map<string, Price>, generation: string, regions: seq<RegionResult>): map<string, Price> {
    if regions == [] then rows
    else PutAll(PutRegions(rows, generation, regions[..|regions| - 1]), generation, regions[|regions| - 1].prices)
  }

  predicate SameOutside(generation: string, before: map<string, Price>, after: map<string, Price>) {
    && (forall pk :: pk in before && !StartsWith(pk, generation + "#") ==> pk in after && after[pk] == before[pk])
    && (forall pk :: pk in after && !StartsWith(pk, generation + "#") ==> pk in before)
  }

  lemma {:induction false} PutAllSameOutside(rows: map<string, Price>, generation: string, prices: seq<(string, Price)>)
    requires generation != ""
    ensures SameOutside(generation, rows, PutAll(rows, generation, prices))
  {
    if prices != [] {
      PutAllSameOutside(rows, generation, prices[..|prices| - 1]);
      var pk := StorageKey(generation, prices[|prices| - 1].0);
      assert pk == generation + "#" + prices[|prices| - 1].0;
      assert pk[..|generation + "#"|] == generation + "#";
    }
  }

  /** The table after the steps of one run, when all of them are possible. */
  function RunSteps(s: Sync, steps: seq<SyncStep>): Option<Sync> {
    if steps == [] then Some(s)
    else
      var before, step := RunSteps(s, steps[..|steps| - 1]), steps[|steps| - 1];
      if before.None? || !CanSync(before.value, step) then None else Some(DoSync(before.value, step))
  }

  lemma OneMoreStep(s: Sync, steps: seq<SyncStep>, step: SyncStep)
    requires RunSteps(s, steps).Some? && CanSync(RunSteps(s, steps).value, step)
    ensures RunSteps(s, steps + [step]) == Some(DoSync(RunSteps(s, steps).value, step))
  {
    assert (steps + [step])[..|steps|] == steps;
  }

  /** The steps lead from s to a table with these rows and this metadata row, in the middle of the run. */
  ghost predicate Reaches(s: Sync, steps: seq<SyncStep>, generation: string, rows: map<string, Price>,
                          metadata: Option<Metadata>) {
    && RunSteps(s, steps).Some? && RunSteps(s, steps).value.table == Table(rows, metadata)
    && generation in RunSteps(s, steps).value.runs && RunSteps(s, steps).value.runs[generation] == Writing
    && forall step :: step in steps ==> step.generation == generation && !step.Activate?
  }

  /** The price listed last under a key: in region i, at position j. */
  predicate ListedLast(regions: seq<RegionResult>, i: nat, j: nat, key: string) {
    && i < |regions| && LastOf(regions[i].prices, j, key)
    && forall h :: i < h < |regions| ==> !Lists(regions[h].prices, key)
  }

  predicate LastOf(prices: seq<(string, Price)>, j: nat, key: string) {
    j < |prices| && prices[j].0 == key && forall h :: j < h < |prices| ==> prices[h].0 != key
  }

  predicate Lists(prices: seq<(string, Price)>, key: string) {
    exists j :: 0 <= j < |prices| && prices[j].0 == key
  }

  lemma {:induction false} PutAllHolds(rows: map<string, Price>, g: string, prices: seq<(string, Price)>, key: string)
    requires g != ""
    ensures var after, pk := PutAll(rows, g, prices), g + "#" + key;
            && (forall j: nat :: LastOf(prices, j, key) ==> pk in after && after[pk] == prices[j].1)
            && (!Lists(prices, key) ==> (pk in after <==> pk in rows) && (pk in rows ==> after[pk] == rows[pk]))
            && (Lists(prices, key) ==> pk in after)
  {
    if prices != [] {
      var n := |prices| - 1;
      var front, last := prices[..n], prices[n];
      PutAllHolds(rows, g, front, key);
      assert (g + "#" + last.0)[|g| + 1..] == last.0 && (g + "#" + key)[|g| + 1..] == key;
      LastOfFront(prices, key);
    }
  }

  lemma LastOfFront(prices: seq<(string, Price)>, key: string)
    requires prices != []
    ensures var n := |prices| - 1;
            && (forall j: nat :: LastOf(prices, j, key) && j != n ==> LastOf(prices[..n], j, key) && prices[n].0 != key)
            && (LastOf(prices, n, key) <==> prices[n].0 == key)
            && (Lists(prices, key) <==> Lists(prices[..n], key) || prices[n].0 == key)
  {
    var n := |prices| - 1;
    if Lists(prices[..n], key) {
      var j :| 0 <= j < n && prices[..n][j].0 == key;
      assert prices[j].0 == key;
    }
    assert prices[n].0 == key ==> Lists(prices, key);
    if j :| 0 <= j < n && prices[j].0 == key {
      assert prices[..n][j].0 == key;
    }
  }

  lemma {:induction false} PutRegionsHold(rows: map<string, Price>, g: string, regions: seq<RegionResult>, key: string)
    requires g != "" && Unwritten(rows, g)
    ensures var after, pk := PutRegions(rows, g, regions), g + "#" + key;
            && (forall i: nat, j: nat :: ListedLast(regions, i, j, key) ==>
                pk in after && after[pk] == regions[i].prices[j].1)
            && (pk !in after <==> NoneLists(regions, key))
  {
    var pk := g + "#" + key;
    if regions == [] {
      assert pk[..|g + "#"|] == g + "#";
    } else {
      var n := |regions| - 1;
      var front := regions[..n];
      PutRegionsHold(rows, g, front, key);
      PutAllHolds(PutRegions(rows, g, front), g, regions[n].prices, key);
      ListedFront(regions, key);
    }
  }

  predicate NoneLists(regions: seq<RegionResult>, key: string) {
    forall i :: 0 <= i < |regions| ==> !Lists(regions[i].prices, key)
  }

  lemma ListedFront(regions: seq<RegionResult>, key: string)
    requires regions != []
    ensures var n := |regions| - 1;
            && (forall i: nat, j: nat :: ListedLast(regions, i, j, key) && i < n ==>
                  ListedLast(regions[..n], i, j, key) && !Lists(regions[n].prices, key))
            && (NoneLists(regions, key) <==> NoneLists(regions[..n], key) && !Lists(regions[n].prices, key))
  {
    var n := |regions| - 1;
    assert forall i :: 0 <= i < n ==> regions[..n][i] == regions[i];
  }

  /** After an activated run, a reader that refreshes answers the price that the regions listed last under
      the key, and nothing when no region listed it. */
  lemma SyncedPricesAreRead(rows: map<string, Price>, g: string, version: string, regions: seq<RegionResult>,
                            reader: Reader, key: string)
    requires g != "" && Unwritten(rows, g) && reader.generation != g
    ensures var t := Table(PutRegions(rows, g, regions), Some(Metadata(g, version)));
            var answer := Answer(Refreshed(reader, t), t, key);
            && (forall i: nat, j: nat :: ListedLast(regions, i, j, key) ==> answer == Some(regions[i].prices[j].1))
            && (answer == None <==> NoneLists(regions, key))
  {
    PutRegionsHold(rows, g, regions, key);
  }

  /** Every region was healthy, and something was written. */
  predicate Complete(regions: seq<RegionResult>) {
    && (forall i :: 0 <= i < |regions| ==> regions[i].healthy)
    && (exists i :: 0 <= i < |regions| && regions[i].prices != [])
  }

  class PriceTable {
    var rows: map<string, Price>
    var metadata: Option<Metadata>

    /** Writes every region's prices under the run's own generation and activates it last. Whatever
        fails on the way, other generations keep their rows, and the metadata row only ever changes
        to this generation once all of its regions are healthy and completely written.

        `s` is the sync state that the run starts in, and `steps` are the steps it takes there: they
        are possible, they are its own, and the last one activates only if everything is complete. */
    method RunPriceSync(generation: string, regions: seq<RegionResult>, version: string, ghost s: Sync)
      returns (activated: bool, raised: bool, ghost steps: seq<SyncStep>)
      requires s.table == Table(rows, metadata) && CanSync(s, Start(generation))
      modifies this
      ensures SameOutside(generation, old(rows), rows)
      ensures metadata == old(metadata) ||
              (metadata == Some(Metadata(generation, version)) && Complete(regions))
      ensures metadata != old(metadata) || !raised ==> rows == PutRegions(old(rows), generation, regions)
      ensures !raised ==> (activated <==> Complete(regions))
      ensures activated ==> !raised && metadata == Some(Metadata(generation, version))
      ensures !raised && !activated ==> metadata == old(metadata)
      ensures RunSteps(s, steps).Some? && RunSteps(s, steps).value.table == Table(rows, metadata)
      ensures forall step :: step in steps ==> step.generation == generation && (step.Activate? ==> Complete(regions))
      ensures metadata != old(metadata) ==> Activate(generation, version) in steps
    {
      steps := [];
      OneMoreStep(s, steps, Start(generation));
      steps := [Start(generation)];
      assert [] + steps == steps;
      var healthy, totalWritten := true, 0;
      for i := 0 to |regions|
        invariant metadata == old(metadata)
        invariant healthy <==> forall h :: 0 <= h < i ==> regions[h].healthy
        invariant totalWritten >= 0
        invariant totalWritten > 0 <==> exists h :: 0 <= h < i && regions[h].prices != []
        invariant rows == PutRegions(old(rows), generation, regions[..i])
        invariant SameOutside(generation, old(rows), rows)
        invariant Reaches(s, steps, generation, rows, metadata)
      {
        var failed;
        failed, steps := WriteRegion(generation, regions[i].prices, s, steps);
        if failed {
          return false, true, steps;
        }
        assert regions[..i + 1][..i] == regions[..i];
        totalWritten := totalWritten + |regions[i].prices|;
        if !regions[i].healthy {
          healthy := false;
        }
      }
      assert regions[..|regions|] == regions;
      if !healthy || totalWritten == 0 {
        return false, false, steps;
      }
      raised := *;
      var applied: bool := *;
      if !raised || applied {
        OneMoreStep(s, steps, Activate(generation, version));
        steps := steps + [Activate(generation, version)];
        metadata := Some(Metadata(generation, version));
      }
      activated := !raised;
    }

    /** The batch of one region; when it raises, a prefix of it was written. */
    method WriteRegion(generation: string, prices: seq<(string, Price)>, ghost s: Sync, ghost before: seq<SyncStep>)
      returns (raised: bool, ghost steps: seq<SyncStep>)
      requires generation != "" && Reaches(s, before, generation, rows, metadata)
      modifies this`rows
      ensures !raised ==> rows == PutAll(old(rows), generation, prices)
      ensures exists n :: 0 <= n <= |prices| && rows == PutAll(old(rows), generation, prices[..n])
      ensures SameOutside(generation, old(rows), rows)
      ensures Reaches(s, steps, generation, rows, metadata)
    {
      steps := before;
      for j := 0 to |prices|
        invariant rows == PutAll(old(rows), generation, prices[..j])
        invariant Reaches(s, steps, generation, rows, metadata)
      {
        PutAllSameOutside(old(rows), generation, prices[..j]);
        raised := *;
        if raised {
          return;
        }
        assert prices[..j + 1][..j] == prices[..j];
        OneMoreStep(s, steps, Put(generation, prices[j].0, prices[j].1));
        steps := steps + [Put(generation, prices[j].0, prices[j].1)];
        rows := rows[StorageKey(generation, prices[j].0) := prices[j].1];
      }
      assert prices[..|prices|] == prices;
      PutAllSameOutside(old(rows), generation, prices);
      raised := false;
    }
  }
}
