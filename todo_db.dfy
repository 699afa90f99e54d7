/**
 * The local cache of task records: an IndexedDB object store 'todos' in the
 * database 'todoDB', keyed by each record's `id` property. Every write is
 * normalised by `sanitizeTodo` first.
 */
module TodoDb {
  import opened Wrappers
  import opened JsValues
  import opened IdbKeys

  /** A reading of `new Date().toISOString()`, which is never the empty string. */
  type IsoTime = s: string | s != [] witness "1970-01-01T00:00:00.000Z"

  /** The five properties a cached record has. */
  const Fields: set<string> := {"id", "text", "done", "createdAt", "frappe_id"}

  /**
   * The failures an object-store request rejects with: `DataError` when the
   * record's `id`, or the id asked for, is not a valid key; `DataCloneError`
   * when the structured clone of the record to be stored fails.
   */
  datatype DbError = DataError | DataCloneError

  /** The object store's contents. */
  type Contents = map<Key, Record>

  /** The shape `sanitizeTodo` gives a record. */
  predicate IsSanitized(r: Record)
  {
    && r.Keys == Fields
    && r["done"].Bool?
    && (Truthy(r["text"]) || r["text"] == Str(""))
    && Truthy(r["createdAt"])
    && (Truthy(r["frappe_id"]) || r["frappe_id"] == Null)
  }

  /** Every record is sanitized, clonable, and filed under the key its own `id` gives. */
  predicate ValidContents(m: Contents)
  {
    forall k :: k in m ==> IsSanitized(m[k]) && Cloneable(m[k]) && KeyOf(m[k]["id"]) == Some(k)
  }

  /** `sanitizeTodo`: keep `id`, default the other four properties, drop every other property. */
  function Sanitize(todo: Record, now: IsoTime): (r: Record)
    ensures IsSanitized(r)
    ensures r["id"] == Get(todo, "id")
    ensures Truthy(r["done"]) <==> Truthy(Get(todo, "done"))
    ensures forall f :: f in {"text", "createdAt", "frappe_id"} && Truthy(Get(todo, f)) ==> r[f] == Get(todo, f)
    ensures !Truthy(Get(todo, "text")) ==> r["text"] == Str("")
    ensures !Truthy(Get(todo, "createdAt")) ==> r["createdAt"] == Str(now)
    ensures !Truthy(Get(todo, "frappe_id")) ==> r["frappe_id"] == Null
  {
    map[
      "id" := Get(todo, "id"),
      "text" := if Truthy(Get(todo, "text")) then Get(todo, "text") else Str(""),
      "done" := Bool(Truthy(Get(todo, "done"))),
      "createdAt" := if Truthy(Get(todo, "createdAt")) then Get(todo, "createdAt") else Str(now),
      "frappe_id" := if Truthy(Get(todo, "frappe_id")) then Get(todo, "frappe_id") else Null
    ]
  }

  /** A sanitized record is left as it is, whatever the clock says. */
  lemma SanitizeFixesSanitized(r: Record, now: IsoTime)
    requires IsSanitized(r)
    ensures Sanitize(r, now) == r
  {
  }

  /** Sanitizing twice is sanitizing once. */
  lemma SanitizeIdempotent(todo: Record, now: IsoTime, later: IsoTime)
    ensures Sanitize(Sanitize(todo, now), later) == Sanitize(todo, now)
  {
    SanitizeFixesSanitized(Sanitize(todo, now), later);
  }

  /** True when the record's `id` is a valid key. */
  predicate HasKey(todo: Record)
  {
    KeyOf(Get(todo, "id")).Some?
  }

  /** The properties `sanitizeTodo` copies from its argument when they are truthy (`id` always). */
  const Copied: set<string> := {"id", "text", "createdAt", "frappe_id"}

  /**
   * What `put` of the record's sanitized form rejects with, read off the
   * record itself: the structured clone comes first and fails on a copied
   * value it refuses; then the key is read from `id`.
   */
  function PutError(todo: Record): Option<DbError>
  {
    if exists f :: f in Copied && Get(todo, f).Func? then Some(DataCloneError)
    else if !HasKey(todo) then Some(DataError)
    else None
  }

  /** A `put` of the record's sanitized form succeeds. */
  predicate Storable(todo: Record)
  {
    PutError(todo).None?
  }

  /** `saveTodo`: `put` the sanitized record, overwriting the record stored under the same key. */
  function SaveOne(m: Contents, todo: Record, now: IsoTime): (res: Result<Contents, DbError>)
    ensures res.Err? <==> !Storable(todo)
    ensures res.Err? ==> Some(res.error) == PutError(todo)
    ensures res.Ok? ==>
              var k := KeyOf(Get(todo, "id")).value;
              && res.value.Keys == m.Keys + {k}
              && res.value[k] == Sanitize(todo, now)
              && forall k' :: k' in m && k' != k ==> res.value[k'] == m[k']
    ensures res.Ok? && ValidContents(m) ==> ValidContents(res.value)
  {
    var rec := Sanitize(todo, now);
    SanitizeCloneable(todo, now);
    if !Cloneable(rec) then Err(DataCloneError)
    else match KeyOf(rec["id"])
      case None => Err(DataError)
      case Some(k) => Ok(m[k := rec])
  }

  /** The sanitized record is clonable exactly when no copied property holds a value structured clone refuses. */
  lemma SanitizeCloneable(todo: Record, now: IsoTime)
    ensures Cloneable(Sanitize(todo, now)) <==> forall f :: f in Copied ==> !Get(todo, f).Func?
  {
  }

  /** The store after a bulk write, and whether the call completed. */
  datatype Bulk = Bulk(store: Contents, outcome: Outcome<DbError>)

  /**
   * `saveTodos`: the saves of the elements one after another, each with its
   * own clock reading. The first record without a valid key stops the loop;
   * the records written before it stay written.
   */
  function SaveAll(m: Contents, todos: seq<Record>, clock: seq<IsoTime>): (res: Bulk)
    requires |clock| == |todos|
    decreases |todos|
  {
    if todos == [] then Bulk(m, Pass)
    else match SaveOne(m, todos[0], clock[0])
      case Err(e) => Bulk(m, Fail(e))
      case Ok(next) => SaveAll(next, todos[1..], clock[1..])
  }

  /** A bulk write completes exactly when every record can be put. */
  lemma {:induction false} SaveAllCompletes(m: Contents, todos: seq<Record>, clock: seq<IsoTime>)
    requires |clock| == |todos|
    ensures SaveAll(m, todos, clock).outcome.Pass? <==> forall j :: 0 <= j < |todos| ==> Storable(todos[j])
    decreases |todos|
  {
    if todos != [] {
      var first := SaveOne(m, todos[0], clock[0]);
      if first.Ok? {
        SaveAllCompletes(first.value, todos[1..], clock[1..]);
        assert forall j :: 1 <= j < |todos| ==> todos[j] == todos[1..][j - 1];
      }
    }
  }

  /** A bulk write of `a + b` is the write of `a` followed, if it completed, by the write of `b`. */
  lemma {:induction false} SaveAllConcat(m: Contents, a: seq<Record>, ca: seq<IsoTime>, b: seq<Record>, cb: seq<IsoTime>)
    requires |ca| == |a| && |cb| == |b|
    ensures SaveAll(m, a + b, ca + cb)
            == (var front := SaveAll(m, a, ca);
                if front.outcome.Fail? then front else SaveAll(front.store, b, cb))
    decreases |a|
  {
    if a == [] {
      assert a + b == b && ca + cb == cb;
    } else {
      assert (a + b)[0] == a[0] && (ca + cb)[0] == ca[0];
      assert (a + b)[1..] == a[1..] + b && (ca + cb)[1..] == ca[1..] + cb;
      var first := SaveOne(m, a[0], ca[0]);
      if first.Ok? {
        SaveAllConcat(first.value, a[1..], ca[1..], b, cb);
      }
    }
  }

  /** A failed bulk write leaves exactly the records written before the first record that cannot be put, and rejects with that record's error. */
  lemma SaveAllStopsAtFirstInvalid(m: Contents, todos: seq<Record>, clock: seq<IsoTime>, j: nat)
    requires |clock| == |todos|
    requires j < |todos| && !Storable(todos[j])
    requires forall i :: 0 <= i < j ==> Storable(todos[i])
    ensures SaveAll(m, todos, clock)
            == Bulk(SaveAll(m, todos[..j], clock[..j]).store, Fail(PutError(todos[j]).value))
    ensures SaveAll(m, todos[..j], clock[..j]).outcome == Pass
  {
    assert todos == todos[..j] + todos[j..] && clock == clock[..j] + clock[j..];
    SaveAllConcat(m, todos[..j], clock[..j], todos[j..], clock[j..]);
    SaveAllCompletes(m, todos[..j], clock[..j]);
  }

  /** A key that no record of the bulk write carries keeps its old record, or stays absent. */
  lemma {:induction false} SaveAllUntouched(m: Contents, todos: seq<Record>, clock: seq<IsoTime>, k: Key)
    requires |clock| == |todos|
    requires forall j :: 0 <= j < |todos| ==> KeyOf(Get(todos[j], "id")) != Some(k)
    ensures k in SaveAll(m, todos, clock).store <==> k in m
    ensures k in m ==> SaveAll(m, todos, clock).store[k] == m[k]
    decreases |todos|
  {
    if todos != [] {
      var first := SaveOne(m, todos[0], clock[0]);
      if first.Ok? {
        assert forall j :: 0 <= j < |todos| - 1 ==> todos[1..][j] == todos[j + 1];
        SaveAllUntouched(first.value, todos[1..], clock[1..], k);
      }
    }
  }

  /** In a completed bulk write, the last record carrying a key is the one stored under it. */
  lemma {:induction false} SaveAllLastWins(m: Contents, todos: seq<Record>, clock: seq<IsoTime>, j: nat, k: Key)
    requires |clock| == |todos|
    requires SaveAll(m, todos, clock).outcome.Pass?
    requires j < |todos| && KeyOf(Get(todos[j], "id")) == Some(k)
    requires forall i :: j < i < |todos| ==> KeyOf(Get(todos[i], "id")) != Some(k)
    ensures k in SaveAll(m, todos, clock).store
    ensures SaveAll(m, todos, clock).store[k] == Sanitize(todos[j], clock[j])
    decreases |todos|
  {
    var first := SaveOne(m, todos[0], clock[0]);
    assert first.Ok?;
    assert forall i :: 0 <= i < |todos| - 1 ==> todos[1..][i] == todos[i + 1];
    if j == 0 {
      SaveAllUntouched(first.value, todos[1..], clock[1..], k);
    } else {
      SaveAllLastWins(first.value, todos[1..], clock[1..], j - 1, k);
    }
  }

  /** A bulk write keeps the store valid. */
  lemma {:induction false} SaveAllKeepsValid(m: Contents, todos: seq<Record>, clock: seq<IsoTime>)
    requires |clock| == |todos|
    requires ValidContents(m)
    ensures ValidContents(SaveAll(m, todos, clock).store)
    decreases |todos|
  {
    if todos != [] {
      var first := SaveOne(m, todos[0], clock[0]);
      if first.Ok? {
        SaveAllKeepsValid(first.value, todos[1..], clock[1..]);
      }
    }
  }

  /** The keys of `m` that the range holds. */
  function Hits(m: Contents, range: KeyRange): set<Key>
  {
    set k | k in m && InRange(k, range)
  }

  /**
   * `loadTodo`: `get` of a key gives the record stored under it, `get` of a
   * key range the record with the smallest key in the range; `None`
   * (JavaScript `undefined`) when there is none.
   */
  function Lookup(m: Contents, query: Query): (r: Result<Option<Record>, DbError>)
    ensures r.Err? <==> query.KeyQuery? && KeyOf(query.id).None?
    ensures r.Err? ==> r.error == DataError
    ensures r.Ok? ==> (r.value.Some? <==> exists k :: k in m && Selects(query, k))
    ensures r.Ok? && r.value.Some? ==>
              exists k :: k in m && Selects(query, k) && r.value.value == m[k]
                          && forall k' :: k' in m && Selects(query, k') && k' != k ==> KeyLess(k, k')
  {
    match query
    case KeyQuery(id) =>
      (match KeyOf(id)
       case None => Err(DataError)
       case Some(k) => Ok(if k in m then Some(m[k]) else None))
    case RangeQuery(range) =>
      var hits := Hits(m, range);
      assert forall k :: k in m && InRange(k, range) ==> k in hits;
      if hits == {} then Ok(None)
      else
        SmallestExists(hits);
        SmallestUnique(hits);
        var k :| IsSmallest(k, hits);
        Ok(Some(m[k]))
  }

  /** Loading the id of a record just saved gives back that record, sanitized. */
  lemma SaveThenLoad(m: Contents, todo: Record, now: IsoTime)
    requires Storable(todo)
    ensures SaveOne(m, todo, now).Ok?
    ensures Lookup(SaveOne(m, todo, now).value, KeyQuery(Get(todo, "id"))) == Ok(Some(Sanitize(todo, now)))
  {
  }

  /** `deleteTodo`: remove the record under a key, or every record in a key range; a query that selects nothing changes nothing. */
  function Remove(m: Contents, query: Query): (res: Result<Contents, DbError>)
    ensures res.Err? <==> query.KeyQuery? && KeyOf(query.id).None?
    ensures res.Err? ==> res.error == DataError
    ensures res.Ok? ==> forall k :: k in res.value <==> k in m && !Selects(query, k)
    ensures res.Ok? ==> forall k :: k in res.value ==> res.value[k] == m[k]
    ensures res.Ok? && (forall k :: k in m ==> !Selects(query, k)) ==> res.value == m
    ensures res.Ok? && ValidContents(m) ==> ValidContents(res.value)
  {
    match query
    case KeyQuery(id) =>
      (match KeyOf(id)
       case None => Err(DataError)
       case Some(k) => Ok(m - {k}))
    case RangeQuery(range) =>
      Ok(map k | k in m && !InRange(k, range) :: m[k])
  }

  /** Records listed from a valid store are sanitized and carry the key they are listed under. */
  lemma ListedRecordsValid(m: Contents, rows: seq<Record>, keys: seq<Key>)
    requires ValidContents(m)
    requires |keys| == |rows|
    requires forall i :: 0 <= i < |keys| ==> keys[i] in m && rows[i] == m[keys[i]]
    ensures forall i :: 0 <= i < |rows| ==> IsSanitized(rows[i]) && KeyOf(rows[i]["id"]) == Some(keys[i])
  {
  }

  /** The object store, opened with key path `id`. */
  class LocalCache {
    var store: Contents

    ghost predicate Valid()
      reads this
    {
      ValidContents(store)
    }

    /** The database as it is found when opened. */
    constructor (contents: Contents)
      requires ValidContents(contents)
      ensures store == contents && Valid()
    {
      store := contents;
    }

    /** `saveTodo`: resolves with the key the record was stored under. */
    method SaveTodo(todo: Record, now: IsoTime) returns (r: Result<Key, DbError>)
      requires Valid()
      modifies this
      ensures Valid()
      ensures match SaveOne(old(store), todo, now)
              case Ok(next) => r.Ok? && store == next && KeyOf(Get(todo, "id")) == Some(r.value)
              case Err(e) => r == Err(e) && store == old(store)
    {
      var rec := Sanitize(todo, now);
      if !Cloneable(rec) {
        r := Err(DataCloneError);
      } else {
        match KeyOf(rec["id"]) {
          case None =>
            r := Err(DataError);
          case Some(k) =>
            store := store[k := rec];
            r := Ok(k);
        }
      }
    }

    /** `saveTodos`: one `put` per element, in order; `clock` holds the clock reading each sanitize may take. */
    method SaveTodos(todos: seq<Record>, clock: seq<IsoTime>) returns (outcome: Outcome<DbError>)
      requires Valid()
      requires |clock| == |todos|
      modifies this
      ensures Valid()
      ensures Bulk(store, outcome) == SaveAll(old(store), todos, clock)
    {
      var i := 0;
      while i < |todos|
        invariant 0 <= i <= |todos|
        invariant ValidContents(store)
        invariant SaveAll(store, todos[i..], clock[i..]) == SaveAll(old(store), todos, clock)
      {
        assert todos[i..][1..] == todos[i + 1..] && clock[i..][1..] == clock[i + 1..];
        var rec := Sanitize(todos[i], clock[i]);
        if !Cloneable(rec) {
          return Fail(DataCloneError);
        }
        match KeyOf(rec["id"]) {
          case None =>
            return Fail(DataError);
          case Some(k) =>
            store := store[k := rec];
        }
        i := i + 1;
      }
      outcome := Pass;
    }

    /** `loadTodos`: `getAll`, which lists the records in ascending key order. */
    method LoadTodos() returns (rows: seq<Record>, ghost keys: seq<Key>)
      ensures |keys| == |rows|
      ensures forall i :: 0 <= i < |keys| ==> keys[i] in store && rows[i] == store[keys[i]]
      ensures forall k :: k in store ==> k in keys
      ensures forall i, j :: 0 <= i < j < |keys| ==> KeyLess(keys[i], keys[j])
      ensures store == map[] ==> rows == []
      ensures Valid() ==> forall i :: 0 <= i < |rows| ==> IsSanitized(rows[i]) && KeyOf(rows[i]["id"]) == Some(keys[i])
    {
      var rest := store.Keys;
      rows, keys := [], [];
      while rest != {}
        invariant rest <= store.Keys
        invariant |keys| == |rows|
        invariant forall i :: 0 <= i < |keys| ==> keys[i] in store && keys[i] !in rest && rows[i] == store[keys[i]]
        invariant forall k :: k in store ==> k in keys || k in rest
        invariant forall i, j :: 0 <= i < j < |keys| ==> KeyLess(keys[i], keys[j])
        invariant forall i, k :: 0 <= i < |keys| && k in rest ==> KeyLess(keys[i], k)
        invariant store == map[] ==> rows == []
        decreases |rest|
      {
        SmallestExists(rest);
        var k :| IsSmallest(k, rest);
        rows, keys := rows + [store[k]], keys + [k];
        rest := rest - {k};
      }
      if Valid() {
        ListedRecordsValid(store, rows, keys);
      }
    }

    /** `loadTodo`: the query is a key or a key range. */
    method LoadTodo(query: Query) returns (r: Result<Option<Record>, DbError>)
      ensures r == Lookup(store, query)
      ensures Valid() && r.Ok? && r.value.Some? ==> IsSanitized(r.value.value)
    {
      r := Lookup(store, query);
    }

    /** `deleteTodo`: the query is a key or a key range. */
    method DeleteTodo(query: Query) returns (outcome: Outcome<DbError>)
      requires Valid()
      modifies this
      ensures Valid()
      ensures match Remove(old(store), query)
              case Ok(next) => outcome == Pass && store == next
              case Err(e) => outcome == Fail(e) && store == old(store)
    {
      match Remove(store, query) {
        case Ok(next) =>
          store := next;
          outcome := Pass;
        case Err(e) =>
          outcome := Fail(e);
      }
    }

    /** `clearTodos`: remove every record. */
    method ClearTodos()
      requires Valid()
      modifies this
      ensures Valid()
      ensures store == map[]
    {
      store := map[];
    }
  }
}
