/**
 * The example server's in-memory todo store: a `Map` from id to todo, kept in
 * insertion order as a JS `Map` is. The fresh id and the current time, which
 * `create` draws from `uuidv7()` and `new Date()`, are parameters here.
 */
module Todos {
  import opened Common

  /** A point in time, as the milliseconds a `Date` holds. */
  type Time = int

  datatype Todo = Todo(id: string, title: string, isDone: bool, createdAt: Time, updatedAt: Time)

  /** The body of a create request: the fields the form sends. */
  datatype CreateBody = CreateBody(title: string)

  /** The body of an update request: the fields it overrides; an absent one is kept. */
  datatype Patch = Patch(id: Option<string>, title: Option<string>, isDone: Option<bool>)

  const NotFoundMessage: string := "Not Found"

  /** `todo.copy(overrides)`: a new todo with every present override replacing the old field. */
  function Copy(t: Todo, p: Patch): (r: Todo)
    ensures r.id == p.id.GetOr(t.id)
    ensures r.title == p.title.GetOr(t.title)
    ensures r.isDone == p.isDone.GetOr(t.isDone)
    ensures r.createdAt == t.createdAt && r.updatedAt == t.updatedAt
  {
    Todo(p.id.GetOr(t.id), p.title.GetOr(t.title), p.isDone.GetOr(t.isDone), t.createdAt, t.updatedAt)
  }

  /** Copying with no overrides gives an equal todo. */
  lemma CopyEmpty(t: Todo)
    ensures Copy(t, Patch(None, None, None)) == t
  {
  }

  /** Applying the same update twice is the same as applying it once. */
  lemma CopyIdempotent(t: Todo, p: Patch)
    ensures Copy(Copy(t, p), p) == Copy(t, p)
  {
  }

  /** `s` without the element `k`, the others in their order. */
  function Without(s: seq<string>, k: string): (r: seq<string>)
    ensures forall x :: x in r <==> x in s && x != k
    ensures |r| <= |s|
  {
    if s == [] then []
    else if s[0] == k then Without(s[1..], k)
    else [s[0]] + Without(s[1..], k)
  }

  /** No element occurs twice. */
  predicate Distinct(s: seq<string>) {
    forall i, j :: 0 <= i < j < |s| ==> s[i] != s[j]
  }

  /** Dropping an element keeps the others distinct. */
  lemma {:induction false} WithoutDistinct(s: seq<string>, k: string)
    requires Distinct(s)
    ensures Distinct(Without(s, k))
  {
    if s != [] {
      var rest := Without(s[1..], k);
      WithoutDistinct(s[1..], k);
      if s[0] != k {
        assert s[0] !in s[1..] by {
          forall j | 1 <= j < |s| ensures s[j] != s[0] {}
        }
        assert s[0] !in rest;
        var r := [s[0]] + rest;
        forall i, j | 0 <= i < j < |r|
          ensures r[i] != r[j]
        {
          if i == 0 {
            assert r[j] == rest[j - 1] && rest[j - 1] in rest;
          } else {
            assert r[i] == rest[i - 1] && r[j] == rest[j - 1];
          }
        }
        assert Without(s, k) == r;
      }
    }
  }

  /** Dropping an element that is not there changes nothing. */
  lemma {:induction false} WithoutAbsent(s: seq<string>, k: string)
    requires k !in s
    ensures Without(s, k) == s
  {
    if s != [] {
      WithoutAbsent(s[1..], k);
      assert [s[0]] + s[1..] == s;
    }
  }

  class TodoService {
    var todos: map<string, Todo>
    /** The keys of `todos` in the order the `Map` iterates them. */
    var ids: seq<string>

    ghost predicate Valid()
      reads this
    {
      && Distinct(ids)
      && (forall k :: k in todos <==> k in ids)
      && (forall k :: k in todos ==> todos[k].id == k)
    }

    constructor()
      ensures Valid() && todos == map[] && ids == []
    {
      todos := map[];
      ids := [];
    }

    /** `todos.set(t.id, t)`: a new key goes last, an existing one keeps its place. */
    method Store(t: Todo)
      requires Valid()
      modifies this
      ensures Valid()
      ensures todos == old(todos)[t.id := t]
      ensures ids == if t.id in old(todos) then old(ids) else old(ids) + [t.id]
    {
      if t.id !in todos {
        ids := ids + [t.id];
      }
      todos := todos[t.id := t];
    }

    /** `getById`: the stored todo, or a thrown "Not Found". */
    function GetById(id: string): (r: Result<Todo>)
      reads this
      ensures r.Ok? <==> id in todos
      ensures r.Ok? ==> r.value == todos[id]
      ensures r.Err? ==> r.error == Raised(NotFoundMessage)
    {
      if id in todos then Ok(todos[id]) else Err(Raised(NotFoundMessage))
    }

    /**
     * `create`: a todo with the body's title, the fresh id, not done, created
     * and updated now, stored under its id; every other entry stays as it was.
     */
    method Create(id: string, now: Time, body: CreateBody) returns (t: Todo)
      requires Valid()
      modifies this
      ensures Valid()
      ensures t == Todo(id, body.title, false, now, now)
      ensures GetById(id) == Ok(t)
      ensures forall k :: k != id ==> GetById(k) == old(GetById(k))
      ensures id !in old(todos) ==> ids == old(ids) + [id]
    {
      t := Todo(id, body.title, false, now, now);
      Store(t);
    }

    /**
     * `updateById`: a missing id throws "Not Found" and changes nothing;
     * otherwise the stored todo's copy with the body's fields is stored under
     * the copy's id and returned. `updatedAt` is not refreshed.
     */
    method UpdateById(id: string, patch: Patch) returns (r: Result<Todo>)
      requires Valid()
      modifies this
      ensures Valid()
      ensures r.Err? <==> id !in old(todos)
      ensures r.Err? ==> r.error == Raised(NotFoundMessage) && todos == old(todos) && ids == old(ids)
      ensures r.Ok? ==> r.value == Copy(old(todos[id]), patch)
      ensures r.Ok? ==> r.value.updatedAt == old(todos[id]).updatedAt
      ensures r.Ok? ==> todos == old(todos)[r.value.id := r.value]
      ensures r.Ok? ==> ids == if r.value.id in old(todos) then old(ids) else old(ids) + [r.value.id]
      ensures r.Ok? && (patch.id.None? || patch.id == Some(id)) ==>
        ids == old(ids) && todos.Keys == old(todos.Keys) && GetById(id) == r
    {
      match GetById(id)
      case Err(e) =>
        r := Err(e);
      case Ok(t) =>
        var updated := Copy(t, patch);
        Store(updated);
        r := Ok(updated);
    }

    /** `deleteById`: the id is gone and every other entry stays; an absent id is a no-op. */
    method DeleteById(id: string)
      requires Valid()
      modifies this
      ensures Valid()
      ensures todos == old(todos) - {id}
      ensures ids == Without(old(ids), id)
      ensures GetById(id).Err?
      ensures id !in old(todos) ==> todos == old(todos) && ids == old(ids)
    {
      WithoutDistinct(ids, id);
      if id !in ids {
        WithoutAbsent(ids, id);
      }
      todos := todos - {id};
      ids := Without(ids, id);
    }

    /** `getAll`: every stored todo once, in insertion order. */
    method GetAll() returns (r: seq<Todo>)
      requires Valid()
      ensures |r| == |ids| && |r| == |todos|
      ensures forall i :: 0 <= i < |r| ==> r[i] == todos[ids[i]]
      ensures forall t :: t in r <==> t in todos.Values
      ensures forall i, j :: 0 <= i < j < |r| ==> r[i].id != r[j].id
    {
      var m, ks := todos, ids;
      r := seq(|ks|, i requires 0 <= i < |ks| && ks[i] in m => m[ks[i]]);
      forall t | t in todos.Values
        ensures t in r
      {
        var k :| k in todos && todos[k] == t;
        var i :| 0 <= i < |ids| && ids[i] == k;
        assert r[i] == t;
      }
      KeysCount();
    }

    /** A distinct key list covering the map's keys is as long as the map. */
    lemma KeysCount()
      requires Valid()
      ensures |ids| == |todos|
    {
      DistinctCardinality(ids);
      assert (set k | k in ids) == todos.Keys;
    }
  }

  /** A sequence without repetitions has as many elements as its set. */
  lemma {:induction false} DistinctCardinality(s: seq<string>)
    requires Distinct(s)
    ensures |set k | k in s| == |s|
  {
    if s != [] {
      var t := s[1..];
      DistinctCardinality(t);
      assert (set k | k in s) == (set k | k in t) + {s[0]};
      assert s[0] !in t;
    }
  }
}
