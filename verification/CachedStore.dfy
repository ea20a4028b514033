/** The client store with a cache in front of it, under injected failures. */
module CachedStore {
  import opened Wrappers

  // ----- Numbers as text -----

  const MIN_INT := -0x8000_0000_0000_0000
  const MAX_INT := 0x7fff_ffff_ffff_ffff

  predicate IsInt(n: int) {
    MIN_INT <= n <= MAX_INT
  }

  function Digit(d: int): char
    requires 0 <= d < 10
  {
    ('0' as int + d) as char
  }

  predicate IsDigit(c: char) {
    '0' <= c <= '9'
  }

  function PrintNat(n: nat): string {
    if n < 10 then [Digit(n)] else PrintNat(n / 10) + [Digit(n % 10)]
  }

  /** `strconv.Itoa`. */
  function Itoa(n: int): string {
    if n < 0 then "-" + PrintNat(-n) else PrintNat(n)
  }

  function ReadDigits(s: string): Option<nat> {
    if s == "" then Some(0)
    else
      var front, c := ReadDigits(s[..|s| - 1]), s[|s| - 1];
      if front.None? || !IsDigit(c) then None else Some(10 * front.value + (c as int - '0' as int))
  }

  /** `strconv.Atoi`: an optional sign, at least one digit, and a result that fits. */
  function Atoi(s: string): Option<int> {
    var signed := s != "" && (s[0] == '-' || s[0] == '+');
    var digits := if signed then s[1..] else s;
    var n := ReadDigits(digits);
    if digits == "" || n.None? then None
    else
      var m: int := n.value;
      var v := if signed && s[0] == '-' then -m else m;
      if IsInt(v) then Some(v) else None
  }

  lemma {:induction false} ReadPrinted(n: nat)
    ensures PrintNat(n) != "" && IsDigit(PrintNat(n)[0]) && ReadDigits(PrintNat(n)) == Some(n)
  {
    var s := PrintNat(n);
    if n < 10 {
      assert s[..0] == "";
    } else {
      ReadPrinted(n / 10);
      assert s[..|s| - 1] == PrintNat(n / 10) && s[|s| - 1] == Digit(n % 10);
    }
  }

  lemma AtoiItoa(n: int)
    requires IsInt(n)
    ensures Atoi(Itoa(n)) == Some(n)
  {
    if n < 0 {
      ReadPrinted(-n);
      assert Itoa(n)[1..] == PrintNat(-n);
    } else {
      ReadPrinted(n);
    }
  }

  // ----- Clients and their cached form -----

  const ROLE_CLIENT := 0

  /** `roleType` is carried by the object but neither by the table nor by the decoder. */
  datatype Client = Client(id: string, description: string, roleType: int, cType: int, cKey: string, pScope: int)

  type Hash = map<string, string>

  const CACHE_MARK := "RCS-mark"

  function ToHashMap(c: Client): Hash {
    map["id" := c.id, "description" := c.description, "type" := Itoa(c.roleType), "cKey" := c.cKey,
        "cType" := Itoa(c.cType), "pScope" := Itoa(c.pScope), CACHE_MARK := "1"]
  }

  /** A missing field reads as the empty string. */
  function Field(m: Hash, key: string): string {
    if key in m then m[key] else ""
  }

  function ToEntityType(m: Hash): Option<Client> {
    var cType, pScope := Atoi(Field(m, "cType")), Atoi(Field(m, "pScope"));
    if cType.None? || pScope.None? then None
    else Some(Client(Field(m, "id"), Field(m, "description"), ROLE_CLIENT, cType.value, Field(m, "cKey"), pScope.value))
  }

  /** What the table keeps of a client. */
  function AsStored(c: Client): Client {
    c.(roleType := ROLE_CLIENT)
  }

  predicate Storable(c: Client) {
    IsInt(c.cType) && IsInt(c.pScope)
  }

  /** Field names differ, so no field of the encoded map hides another. */
  lemma EncodedFields(c: Client, before: Hash)
    ensures var m := before + ToHashMap(c);
            && Field(m, "cType") == Itoa(c.cType) && Field(m, "pScope") == Itoa(c.pScope) && Field(m, "id") == c.id
            && Field(m, "description") == c.description && Field(m, "cKey") == c.cKey
            && Field(m, "type") == Itoa(c.roleType) && CACHE_MARK in m
  {
    hide Itoa;
    assert "pScope"[0] != "cType"[0] && "pScope"[0] != "cKey"[0] && "pScope"[0] != "id"[0];
    assert "type"[0] != "cType"[0] && "type"[0] != "cKey"[0] && "type"[0] != "pScope"[0];
    assert "cType"[1] != "cKey"[1] && "cType"[0] != "id"[0] && "cType"[0] != "description"[0];
    assert CACHE_MARK[0] == 'R';
  }

  /** Decoding what was encoded gives what the table keeps, whatever was in the hash before;
      it is the client itself exactly if its role is that of a client. */
  lemma EntityRoundTrip(c: Client, before: Hash)
    requires Storable(c)
    ensures ToEntityType(before + ToHashMap(c)) == Some(AsStored(c))
    ensures AsStored(c) == c <==> c.roleType == ROLE_CLIENT
  {
    hide Itoa, Atoi, Field, ToHashMap;
    EncodedFields(c, before);
    AtoiItoa(c.cType);
    AtoiItoa(c.pScope);
  }

  // ----- The operations -----

  /** The table and the cache behind the store object. */
  datatype State = State(table: map<string, Client>, cache: map<string, Hash>)

  /** Which of the external calls fail.  A call that fails has no effect. */
  datatype Faults = Faults(cacheRead: bool, cacheWrite: bool, tableRead: bool, tableWrite: bool)

  datatype Config = Config(writeThrough: bool, cacheOnCreate: bool, skipErrOnCacheFailure: bool)

  /** Setting a hash merges the fields into what it already holds. */
  function CacheSetAt(s: State, id: string, c: Client): State {
    s.(cache := s.cache[id := (if id in s.cache then s.cache[id] else map[]) + ToHashMap(c)])
  }

  function CacheSet(s: State, c: Client): State {
    CacheSetAt(s, c.id, c)
  }

  function TableSet(s: State, c: Client): State {
    s.(table := s.table[c.id := AsStored(c)])
  }

  predicate Hit(s: State, id: string) {
    id in s.cache && CACHE_MARK in s.cache[id]
  }

  function GetSpec(cfg: Config, s: State, id: string, x: Faults): (State, Option<Client>) {
    if x.cacheRead then (s, None)
    else if Hit(s, id) then (s, ToEntityType(s.cache[id]))
    else if x.tableRead || id !in s.table then (s, None)
    else if x.cacheWrite then (s, if cfg.skipErrOnCacheFailure then Some(s.table[id]) else None)
    else (CacheSetAt(s, id, s.table[id]), Some(s.table[id]))
  }

  function UpdateSpec(cfg: Config, s: State, c: Client, x: Faults): (State, bool) {
    if cfg.writeThrough then
      if x.cacheWrite then (s, false)
      else if x.tableWrite then (CacheSet(s, c), false)
      else (TableSet(CacheSet(s, c), c), true)
    else
      if x.tableWrite then (s, false)
      else if x.cacheWrite then (TableSet(s, c), false)
      else (CacheSet(TableSet(s, c), c), true)
  }

  function CreateSpec(cfg: Config, s: State, c: Client, x: Faults): (State, bool) {
    if x.tableWrite || c.id in s.table then (s, false)
    else if !cfg.cacheOnCreate then (TableSet(s, c), true)
    else if x.cacheWrite then (TableSet(s, c), false)
    else (CacheSet(TableSet(s, c), c), true)
  }

  class RedisCachedStore {
    const cfg: Config
    var table: map<string, Client>
    var cache: map<string, Hash>

    ghost function View(): State
      reads this
    {
      State(table, cache)
    }

    constructor (cfg: Config)
      ensures this.cfg == cfg && View() == State(map[], map[])
    {
      this.cfg := cfg;
      table, cache := map[], map[];
    }

    method HSet(id: string, m: Hash, fails: bool) returns (ok: bool)
      modifies this`cache
      ensures ok == !fails
      ensures cache == if fails then old(cache) else old(cache)[id := (if id in old(cache) then old(cache)[id] else map[]) + m]
    {
      if fails {
        return false;
      }
      cache := cache[id := (if id in cache then cache[id] else map[]) + m];
      return true;
    }

    method StoreWrite(c: Client, fails: bool) returns (ok: bool)
      modifies this`table
      ensures ok == !fails
      ensures table == if fails then old(table) else old(table)[c.id := AsStored(c)]
    {
      if fails {
        return false;
      }
      table := table[c.id := AsStored(c)];
      return true;
    }

    /** `None` stands for an error. */
    method Get(id: string, x: Faults) returns (entity: Option<Client>)
      modifies this`cache
      ensures (View(), entity) == GetSpec(cfg, old(View()), id, x)
    {
      if x.cacheRead {
        return None;
      }
      if id in cache && CACHE_MARK in cache[id] {
        return ToEntityType(cache[id]);
      }
      if x.tableRead || id !in table {
        return None;
      }
      entity := Some(table[id]);
      var ok := HSet(id, ToHashMap(table[id]), x.cacheWrite);
      if !ok && !cfg.skipErrOnCacheFailure {
        return None;
      }
    }

    method Update(c: Client, x: Faults) returns (ok: bool)
      modifies this
      ensures (View(), ok) == UpdateSpec(cfg, old(View()), c, x)
    {
      var m := ToHashMap(c);
      if cfg.writeThrough {
        ok := HSet(c.id, m, x.cacheWrite);
        if !ok {
          return;
        }
        ok := StoreWrite(c, x.tableWrite);
      } else {
        ok := StoreWrite(c, x.tableWrite);
        if !ok {
          return;
        }
        ok := HSet(c.id, m, x.cacheWrite);
      }
    }

    method Create(c: Client, x: Faults) returns (ok: bool)
      modifies this
      ensures (View(), ok) == CreateSpec(cfg, old(View()), c, x)
    {
      ok := StoreWrite(c, x.tableWrite || c.id in table);
      if !ok {
        return;
      }
      if cfg.cacheOnCreate {
        ok := HSet(c.id, ToHashMap(c), x.cacheWrite);
      }
    }
  }

  // ----- Runs -----

  datatype Action = Get(id: string, x: Faults) | Update(c: Client, x: Faults) | Create(c: Client, x: Faults)

  function Apply(cfg: Config, s: State, a: Action): State {
    match a
    case Get(id, x) => GetSpec(cfg, s, id, x).0
    case Update(c, x) => UpdateSpec(cfg, s, c, x).0
    case Create(c, x) => CreateSpec(cfg, s, c, x).0
  }

  /** An update whose first action succeeded and whose second one failed. */
  predicate HalfUpdate(cfg: Config, a: Action) {
    a.Update? && if cfg.writeThrough then !a.x.cacheWrite && a.x.tableWrite else !a.x.tableWrite && a.x.cacheWrite
  }

  predicate FullUpdate(a: Action) {
    a.Update? && !a.x.cacheWrite && !a.x.tableWrite
  }

  predicate Valid(a: Action) {
    a.Get? || Storable(a.c)
  }

  ghost function Run(cfg: Config, actions: seq<Action>): State {
    if actions == [] then State(map[], map[]) else Apply(cfg, Run(cfg, actions[..|actions| - 1]), actions[|actions| - 1])
  }

  /** The ids whose last update that was not refused outright went only halfway. */
  ghost function Suspects(cfg: Config, actions: seq<Action>): set<string> {
    if actions == [] then {}
    else
      NextSuspects(cfg, actions[|actions| - 1], Suspects(cfg, actions[..|actions| - 1]))
  }

  /** What the cache would answer is what the table holds. */
  ghost predicate Coherent(s: State, id: string) {
    Hit(s, id) ==> id in s.table && ToEntityType(s.cache[id]) == Some(s.table[id])
  }

  ghost predicate Inv(s: State, suspects: set<string>) {
    && (forall id :: id in s.table ==> s.table[id].id == id && Storable(s.table[id]) && s.table[id].roleType == ROLE_CLIENT)
    && (forall id :: id in s.cache ==> CACHE_MARK in s.cache[id])
    && (forall id :: id !in suspects ==> Coherent(s, id))
  }

  lemma CacheSetHolds(s: State, c: Client)
    requires Storable(c)
    ensures var cache := CacheSet(s, c).cache;
            && c.id in cache && CACHE_MARK in cache[c.id] && ToEntityType(cache[c.id]) == Some(AsStored(c))
            && (forall id :: id != c.id ==> (id in cache <==> id in s.cache))
            && (forall id :: id != c.id && id in s.cache ==> cache[id] == s.cache[id])
            && CacheSet(s, c).table == s.table
  {
    EntityRoundTrip(c, if c.id in s.cache then s.cache[c.id] else map[]);
  }

  lemma {:induction false} RunKeepsInv(cfg: Config, actions: seq<Action>)
    requires forall i :: 0 <= i < |actions| ==> Valid(actions[i])
    ensures Inv(Run(cfg, actions), Suspects(cfg, actions))
  {
    if actions != [] {
      var front, a := actions[..|actions| - 1], actions[|actions| - 1];
      RunKeepsInv(cfg, front);
      ApplyKeepsInv(cfg, Run(cfg, front), a, Suspects(cfg, front));
    }
  }

  ghost function NextSuspects(cfg: Config, a: Action, suspects: set<string>): set<string> {
    if HalfUpdate(cfg, a) then suspects + {a.c.id} else if FullUpdate(a) then suspects - {a.c.id} else suspects
  }

  lemma GetKeepsInv(cfg: Config, s: State, a: Action, suspects: set<string>)
    requires Inv(s, suspects) && a.Get?
    ensures Inv(Apply(cfg, s, a), suspects)
  {
    hide CacheSetAt, ToHashMap, ToEntityType;
    if a.id in s.table {
      CacheSetHolds(s, s.table[a.id]);
    }
  }

  lemma CreateKeepsInv(cfg: Config, s: State, a: Action, suspects: set<string>)
    requires Inv(s, suspects) && a.Create? && Valid(a)
    ensures Inv(Apply(cfg, s, a), suspects)
  {
    hide CacheSetAt, ToHashMap, ToEntityType;
    assert a.c.id !in suspects ==> Coherent(s, a.c.id);
    CacheSetHolds(TableSet(s, a.c), a.c);
  }

  lemma WriteThroughKeepsInv(cfg: Config, s: State, a: Action, suspects: set<string>)
    requires Inv(s, suspects) && a.Update? && Valid(a) && cfg.writeThrough
    ensures Inv(Apply(cfg, s, a), NextSuspects(cfg, a, suspects))
  {
    hide CacheSetAt, ToHashMap, ToEntityType;
    CacheSetHolds(s, a.c);
  }

  lemma WriteBackKeepsInv(cfg: Config, s: State, a: Action, suspects: set<string>)
    requires Inv(s, suspects) && a.Update? && Valid(a) && !cfg.writeThrough
    ensures Inv(Apply(cfg, s, a), NextSuspects(cfg, a, suspects))
  {
    hide CacheSetAt, ToHashMap, ToEntityType;
    CacheSetHolds(TableSet(s, a.c), a.c);
  }

  lemma ApplyKeepsInv(cfg: Config, s: State, a: Action, suspects: set<string>)
    requires Inv(s, suspects) && Valid(a)
    ensures Inv(Apply(cfg, s, a), NextSuspects(cfg, a, suspects))
  {
    hide Inv, Apply;
    match a
    case Get(_, _) => GetKeepsInv(cfg, s, a, suspects);
    case Create(_, _) => CreateKeepsInv(cfg, s, a, suspects);
    case Update(_, _) =>
      if cfg.writeThrough {
        WriteThroughKeepsInv(cfg, s, a, suspects);
      } else {
        WriteBackKeepsInv(cfg, s, a, suspects);
      }
  }

  /** Over every run, with any failures and either policy: for an id whose last update did
      not stop halfway, `Get` returns an error or exactly what the table holds. */
  lemma GetIsFresh(cfg: Config, actions: seq<Action>, id: string, x: Faults)
    requires forall i :: 0 <= i < |actions| ==> Valid(actions[i])
    requires id !in Suspects(cfg, actions)
    ensures var s := Run(cfg, actions);
            var r := GetSpec(cfg, s, id, x).1;
            r.Some? ==> id in s.table && r.value == s.table[id]
  {
    RunKeepsInv(cfg, actions);
    assert Coherent(Run(cfg, actions), id);
  }

  /** What has to work for `Get` to answer: the cache read, and on a miss the table read, with
      the entity there, and the cache write unless its failure is skipped. */
  predicate CanAnswer(cfg: Config, s: State, id: string, x: Faults) {
    !x.cacheRead && (id in s.cache || (!x.tableRead && id in s.table && (!x.cacheWrite || cfg.skipErrOnCacheFailure)))
  }

  /** Over every run, with any failures and either policy: for an id whose last update did not
      stop halfway, `Get` answers exactly if it can, and then with what the table holds. */
  lemma GetExact(cfg: Config, actions: seq<Action>, id: string, x: Faults)
    requires forall i :: 0 <= i < |actions| ==> Valid(actions[i])
    requires id !in Suspects(cfg, actions)
    ensures var s := Run(cfg, actions);
            var r := GetSpec(cfg, s, id, x).1;
            && (r.Some? <==> CanAnswer(cfg, s, id, x))
            && (r.Some? ==> id in s.table && r.value == s.table[id])
  {
    hide CacheSetAt, ToEntityType;
    RunKeepsInv(cfg, actions);
    assert Coherent(Run(cfg, actions), id);
  }

  /** Whether a write reports success. */
  function Reports(cfg: Config, s: State, a: Action): bool
    requires !a.Get?
  {
    if a.Update? then UpdateSpec(cfg, s, a.c, a.x).1 else CreateSpec(cfg, s, a.c, a.x).1
  }

  /** The first action of a write fails: nothing has been written then. */
  predicate FirstFails(cfg: Config, s: State, a: Action)
    requires !a.Get?
  {
    if a.Update? && cfg.writeThrough then a.x.cacheWrite else a.x.tableWrite || (a.Create? && a.c.id in s.table)
  }

  lemma RefusedWrites(cfg: Config, s: State, a: Action)
    requires !a.Get?
    ensures FirstFails(cfg, s, a) ==> Apply(cfg, s, a) == s && !Reports(cfg, s, a)
    ensures a.Create? && !cfg.cacheOnCreate ==> Apply(cfg, s, a).cache == s.cache
  {
  }

  /** A write reports success exactly if all it has to do works and a created id is new; then
      the table holds the client, and no write touches any other id. */
  lemma WriteExact(cfg: Config, s: State, a: Action)
    requires !a.Get?
    ensures Reports(cfg, s, a) <==>
            && !a.x.tableWrite && (a.Update? || cfg.cacheOnCreate ==> !a.x.cacheWrite)
            && (a.Create? ==> a.c.id !in s.table)
    ensures var next := Apply(cfg, s, a);
            && (Reports(cfg, s, a) ==> a.c.id in next.table && next.table[a.c.id] == AsStored(a.c))
            && (Reports(cfg, s, a) && (a.Update? || cfg.cacheOnCreate) ==> Hit(next, a.c.id))
            && (forall id :: id != a.c.id ==> (id in next.table <==> id in s.table))
            && (forall id :: id != a.c.id && id in s.table ==> next.table[id] == s.table[id])
            && (forall id :: id != a.c.id && id in s.cache ==> id in next.cache && next.cache[id] == s.cache[id])
  {
    hide ToHashMap, Field, Itoa;
    EncodedFields(a.c, if a.c.id in s.cache then s.cache[a.c.id] else map[]);
  }

  /** A `Get` that answers leaves the entity cached if the cache can be written, and no `Get`
      touches the table. */
  lemma GetFillsCache(cfg: Config, s: State, id: string, x: Faults)
    ensures var (next, r) := GetSpec(cfg, s, id, x);
            next.table == s.table && (r.Some? && !x.cacheWrite ==> Hit(next, id))
  {
    hide ToHashMap, Field, Itoa, ToEntityType;
    if id in s.table {
      EncodedFields(s.table[id], if id in s.cache then s.cache[id] else map[]);
    }
  }

  predicate AllGets(actions: seq<Action>) {
    forall i :: 0 <= i < |actions| ==> actions[i].Get?
  }

  lemma {:induction false} GetsKeepTable(cfg: Config, actions: seq<Action>, gets: seq<Action>)
    requires AllGets(gets)
    ensures Run(cfg, actions + gets).table == Run(cfg, actions).table
    ensures Suspects(cfg, actions + gets) == Suspects(cfg, actions)
  {
    if gets == [] {
      assert actions + gets == actions;
    } else {
      var front := gets[..|gets| - 1];
      GetsKeepTable(cfg, actions, front);
      assert (actions + gets)[..|actions + gets| - 1] == actions + front;
    }
  }

  /** Read your writes: after any run, an update that reported success, or the creation of an
      id that was not suspect, and any reads, `Get` answers with what was written if it can
      answer at all. */
  lemma ReadYourWrites(cfg: Config, before: seq<Action>, a: Action, gets: seq<Action>, x: Faults)
    requires forall i :: 0 <= i < |before| ==> Valid(before[i])
    requires !a.Get? && Valid(a) && Reports(cfg, Run(cfg, before), a) && AllGets(gets)
    requires a.Create? ==> a.c.id !in Suspects(cfg, before)
    ensures var s := Run(cfg, before + [a] + gets);
            GetSpec(cfg, s, a.c.id, x).1 == if CanAnswer(cfg, s, a.c.id, x) then Some(AsStored(a.c)) else None
  {
    hide GetSpec, Apply, ToHashMap, ToEntityType;
    var done := before + [a];
    assert done[..|done| - 1] == before;
    WriteExact(cfg, Run(cfg, before), a);
    GetsKeepTable(cfg, done, gets);
    GetExact(cfg, done + gets, a.c.id, x);
  }

  /** A step makes a cached entry differ from the table exactly if it is an update that went
      halfway and the half that was written disagrees with the half that was not. */
  lemma DivergesExactly(cfg: Config, s: State, a: Action, id: string, suspects: set<string>)
    requires Inv(s, suspects) && Valid(a) && Coherent(s, id)
    ensures !Coherent(Apply(cfg, s, a), id) <==>
            && HalfUpdate(cfg, a) && a.c.id == id
            && if cfg.writeThrough then id !in s.table || s.table[id] != AsStored(a.c)
               else id in s.cache && ToEntityType(s.cache[id]) != Some(AsStored(a.c))
  {
    hide CacheSetAt, ToHashMap, ToEntityType;
    if a.Get? {
      if a.id in s.table {
        CacheSetHolds(s, s.table[a.id]);
      }
    } else {
      CacheSetHolds(s, a.c);
      CacheSetHolds(TableSet(s, a.c), a.c);
    }
  }
}
