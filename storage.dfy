/** `useLocalStorage`: a value mirrored into the browser's local storage under
    a key namespaced by the signed-in user. */
module Storage {
  import opened Wrappers

  /** What a storage slot holds: text that parses to a value, or text that
      does not (malformed JSON, or the empty string, which counts as absent). */
  datatype Entry<T> = Json(value: T) | Unreadable

  /** `window.localStorage`, as seen for values of type `T`. */
  type Store<T> = map<string, Entry<T>>

  /** The argument of `setValue`: a new value, or a function of the current one. */
  datatype Update<!T> = Value(v: T) | Apply(f: T -> T)

  /** A user id counts only when present and non-empty (JavaScript truthiness). */
  predicate SignedIn(userId: Option<string>) {
    userId.Some? && userId.value != ""
  }

  /** `userKey`: `<key>_<userId>` for a signed-in user, the bare key otherwise. */
  function UserKey(key: string, userId: Option<string>): (k: string)
    ensures |k| >= |key| && k[..|key|] == key
    ensures SignedIn(userId) ==> |k| == |key| + 1 + |userId.value| && k[|key|] == '_' && k[|key| + 1..] == userId.value
    ensures !SignedIn(userId) ==> k == key
  {
    if SignedIn(userId) then key + "_" + userId.value else key
  }

  /** Two different signed-in users never share a key, and no user shares the
      signed-out key. */
  lemma UserKeysDistinct(key: string, u1: Option<string>, u2: Option<string>)
    ensures SignedIn(u1) && SignedIn(u2) && u1 != u2 ==> UserKey(key, u1) != UserKey(key, u2)
    ensures SignedIn(u1) ==> UserKey(key, u1) != key
  {
    if SignedIn(u1) && SignedIn(u2) && UserKey(key, u1) == UserKey(key, u2) {
      assert u1.value == UserKey(key, u1)[|key| + 1..];
    }
  }

  /** The lazy initial load: the stored value when the slot parses, and
      `initial` when it is missing or does not parse. */
  function Load<T>(store: Store<T>, key: string, initial: T): (v: T)
    ensures key in store && store[key].Json? ==> v == store[key].value
    ensures key !in store || store[key].Unreadable? ==> v == initial
  {
    if key in store && store[key].Json? then store[key].value else initial
  }

  /** `setItem(key, JSON.stringify(v))`: the slot holds `v` when the browser
      accepts the write; a rejected write (quota) leaves storage as it was. */
  function Persist<T>(store: Store<T>, key: string, v: T, writable: bool): (s: Store<T>)
    ensures writable ==> key in s && s[key] == Json(v)
    ensures !writable ==> s == store
    ensures forall k :: k != key ==> (k in s <==> k in store) && (k in s ==> s[k] == store[k])
  {
    if writable then store[key := Json(v)] else store
  }

  /** A load after an accepted write returns what was written; a write under
      one key never changes what another key loads. */
  lemma LoadAfterPersist<T>(store: Store<T>, key: string, other: string, v: T, writable: bool, initial: T)
    ensures writable ==> Load(Persist(store, key, v, writable), key, initial) == v
    ensures other != key ==>
      Load(Persist(store, key, v, writable), other, initial) == Load(store, other, initial)
  {
  }

  /** A second accepted write under the same key overwrites the first. */
  lemma PersistTwice<T>(store: Store<T>, key: string, a: T, b: T, writable: bool)
    ensures Persist(Persist(store, key, a, writable), key, b, writable) == Persist(store, key, b, writable)
  {
    if writable {
      assert store[key := Json(a)][key := Json(b)] == store[key := Json(b)];
    }
  }

  /** Storage isolation: saving for one signed-in user never changes what a
      different signed-in user, or the signed-out key, loads. */
  lemma UsersIsolated<T>(store: Store<T>, key: string, u1: Option<string>, u2: Option<string>,
                         v: T, writable: bool, initial: T)
    requires SignedIn(u1) && u1 != u2
    ensures Load(Persist(store, UserKey(key, u1), v, writable), UserKey(key, u2), initial)
         == Load(store, UserKey(key, u2), initial)
  {
    UserKeysDistinct(key, u1, u2);
    UserKeysDistinct(key, u2, u1);
    LoadAfterPersist(store, UserKey(key, u1), UserKey(key, u2), v, writable, initial);
  }

  /** The value `setValue` stores: the argument itself, or the argument
      applied to the current value. */
  function Resolve<T>(u: Update<T>, current: T): (v: T)
    ensures u.Value? ==> v == u.v
    ensures u.Apply? ==> v == u.f(current)
  {
    match u
    case Value(v) => v
    case Apply(f) => f(current)
  }

  /** One mounted `useLocalStorage(key, initialValue)` hook. */
  class LocalStorage<T> {
    const key: string
    const initialValue: T
    /** Whether the browser accepts writes (a full quota rejects them). */
    const writable: bool
    /** The session's user id as of the latest render. */
    var userId: Option<string>
    /** `storedValue`, the hook's state. */
    var value: T
    /** `window.localStorage`. */
    var storage: Store<T>

    /** The key this render reads and writes. */
    function CurrentKey(): string
      reads this
    {
      UserKey(key, userId)
    }

    /** Mounting: the state starts as the stored value under the user's key,
        or `initialValue` when that slot is missing or malformed. */
    constructor (key: string, initialValue: T, userId: Option<string>, storage: Store<T>, writable: bool)
      ensures this.key == key && this.initialValue == initialValue && this.writable == writable
      ensures this.userId == userId && this.storage == storage
      ensures value == Load(storage, UserKey(key, userId), initialValue)
    {
      this.key := key;
      this.initialValue := initialValue;
      this.writable := writable;
      this.userId := userId;
      this.storage := storage;
      value := Load(storage, UserKey(key, userId), initialValue);
    }

    /** `setValue`: a function argument is applied to the current value; the
        state takes the new value even when the storage write is rejected,
        and an accepted write makes a later load under the same key return it. */
    method SetValue(u: Update<T>)
      modifies this
      ensures userId == old(userId)
      ensures value == Resolve(u, old(value))
      ensures storage == Persist(old(storage), CurrentKey(), value, writable)
      ensures writable ==> Load(storage, CurrentKey(), initialValue) == value
    {
      var valueToStore := Resolve(u, value);
      value := valueToStore;
      storage := Persist(storage, CurrentKey(), valueToStore, writable);
    }

    /** A re-render under a different session, as the hook is written: the
        key follows the new user id but the state keeps the previous user's
        value, because the lazy initial load runs only on mount. */
    method Rerender(newUserId: Option<string>)
      modifies this
      ensures userId == newUserId && value == old(value) && storage == old(storage)
    {
      userId := newUserId;
    }

    /** The intended reaction to a session change: adopt the new key and
        reload the state from it, so nothing of the previous user's value
        survives. */
    method SwitchUser(newUserId: Option<string>)
      modifies this
      ensures userId == newUserId && storage == old(storage)
      ensures value == Load(storage, CurrentKey(), initialValue)
    {
      userId := newUserId;
      value := Load(storage, CurrentKey(), initialValue);
    }
  }

  /** A concrete run of the hook as written: Alice's list is loaded on mount,
      the session changes to Bob, and Bob's first functional update writes
      Alice's entry into Bob's slot. */
  method LeakAcrossUsers() returns (bobSlot: Entry<seq<string>>)
    ensures bobSlot == Json(["alice's note", "bob's note"])
  {
    var browser: Store<seq<string>> := map["notes_alice" := Json(["alice's note"])];
    assert UserKey("notes", Some("alice")) == "notes_alice";
    var hook := new LocalStorage<seq<string>>("notes", [], Some("alice"), browser, true);
    assert hook.value == ["alice's note"];
    hook.Rerender(Some("bob"));
    hook.SetValue(Apply(xs => xs + ["bob's note"]));
    assert hook.CurrentKey() == "notes_bob";
    assert hook.value == ["alice's note", "bob's note"];
    bobSlot := hook.storage["notes_bob"];
  }

  /** The same run with the session change handled by `SwitchUser`: Bob's
      slot receives only Bob's entry. */
  method NoLeakAcrossUsers() returns (bobSlot: Entry<seq<string>>)
    ensures bobSlot == Json(["bob's note"])
  {
    var browser: Store<seq<string>> := map["notes_alice" := Json(["alice's note"])];
    assert UserKey("notes", Some("alice")) == "notes_alice";
    var hook := new LocalStorage<seq<string>>("notes", [], Some("alice"), browser, true);
    assert hook.value == ["alice's note"];
    hook.SwitchUser(Some("bob"));
    assert hook.CurrentKey() == "notes_bob";
    assert hook.value == [];
    hook.SetValue(Apply(xs => xs + ["bob's note"]));
    assert hook.value == [] + ["bob's note"] == ["bob's note"];
    assert hook.CurrentKey() == "notes_bob";
    bobSlot := hook.storage["notes_bob"];
  }
}
