/**
 * `SynchronizationTasks.usernames`: every person and then every student
 * is written into the "meduniverse" cache twice, username to primary key
 * and primary key to username, under keys prefixed with the model's class
 * name.
 */
module SynchronizationTasks {
  import opened Wrappers
  import opened Text
  import opened Records
  import opened Caches

  /** The cache alias the Celery task writes to. */
  const MeduniverseCache := "meduniverse"

  /** A record as the Celery task sees it: primary key and username. */
  datatype Account = Account(pk: int, username: Option<string>)

  function PersonAccounts(persons: seq<Person>): (r: seq<Account>)
    ensures |r| == |persons|
    ensures forall i :: 0 <= i < |r| ==> r[i] == Account(persons[i].id, persons[i].username)
  {
    if persons == [] then [] else [Account(persons[0].id, persons[0].username)] + PersonAccounts(persons[1..])
  }

  function StudentAccounts(students: seq<Student>): (r: seq<Account>)
    ensures |r| == |students|
    ensures forall i :: 0 <= i < |r| ==> r[i] == Account(students[i].id, students[i].username)
  {
    if students == [] then [] else [Account(students[0].id, students[0].username)] + StudentAccounts(students[1..])
  }

  /** `f"{cls}:username:{username}"`; a missing username is rendered as "None". */
  function UsernameKey(cls: string, username: Option<string>): string {
    cls + ":username:" + FormatOptional(username)
  }

  /** `f"{cls}:id:{pk}"`. */
  function IdKey(cls: string, pk: int): string {
    cls + ":id:" + IntToString(pk)
  }

  /** The cached form of a username: the text, or `None`. */
  function UsernameValue(username: Option<string>): CacheValue {
    match username
    case Some(u) => CText(u)
    case None => CNone
  }

  /** The cache after writing both keys of each account in order. */
  function Synced(entries: map<string, CacheValue>, cls: string, accounts: seq<Account>): map<string, CacheValue> {
    if accounts == [] then entries
    else
      var a := accounts[|accounts| - 1];
      Synced(entries, cls, accounts[..|accounts| - 1])[UsernameKey(cls, a.username) := CInt(a.pk)][IdKey(cls, a.pk) := UsernameValue(a.username)]
  }

  /** The cache after the Celery task: persons first, then students. */
  function UsernamesSpec(entries: map<string, CacheValue>, persons: seq<Person>, students: seq<Student>): map<string, CacheValue> {
    Synced(Synced(entries, "Person", PersonAccounts(persons)), "Student", StudentAccounts(students))
  }

  /** One of the two loops of the Celery task: both keys of each account, in order. */
  method SyncAccounts(cache: Cache, cls: string, accounts: seq<Account>)
    modifies cache
    ensures cache.entries == Synced(old(cache.entries), cls, accounts)
  {
    ghost var start := cache.entries;
    for i := 0 to |accounts|
      invariant cache.entries == Synced(start, cls, accounts[..i])
    {
      assert accounts[..i + 1][..i] == accounts[..i];
      var a := accounts[i];
      cache.Set(UsernameKey(cls, a.username), CInt(a.pk));
      cache.Set(IdKey(cls, a.pk), UsernameValue(a.username));
    }
    assert accounts[..|accounts|] == accounts;
  }

  /**
   * `usernames`, given the configured caches by alias. Without a
   * "meduniverse" cache no cache changes; otherwise that cache ends up as
   * `UsernamesSpec` says and every other cache object is untouched.
   */
  method Usernames(caches: map<string, Cache>, persons: seq<Person>, students: seq<Student>)
    modifies caches.Values
    ensures MeduniverseCache !in caches ==> forall c :: c in caches.Values ==> c.entries == old(c.entries)
    ensures MeduniverseCache in caches ==>
      caches[MeduniverseCache].entries == UsernamesSpec(old(caches[MeduniverseCache].entries), persons, students)
    ensures forall c :: c in caches.Values && MeduniverseCache in caches && c != caches[MeduniverseCache] ==>
      c.entries == old(c.entries)
  {
    if MeduniverseCache !in caches {
      return;
    }
    var cache := caches[MeduniverseCache];
    SyncAccounts(cache, "Person", PersonAccounts(persons));
    SyncAccounts(cache, "Student", StudentAccounts(students));
  }

  /** The index of the last account whose username renders as `name`, if any. */
  function LastWithUsername(accounts: seq<Account>, name: string): (r: Option<nat>)
    ensures r.Some? ==> r.value < |accounts| && FormatOptional(accounts[r.value].username) == name
    ensures r.Some? ==> forall j :: r.value < j < |accounts| ==> FormatOptional(accounts[j].username) != name
    ensures r.None? ==> forall j :: 0 <= j < |accounts| ==> FormatOptional(accounts[j].username) != name
  {
    if accounts == [] then None
    else if FormatOptional(accounts[|accounts| - 1].username) == name then Some(|accounts| - 1)
    else LastWithUsername(accounts[..|accounts| - 1], name)
  }

  /** The index of the last account with primary key `pk`, if any. */
  function LastWithPk(accounts: seq<Account>, pk: int): (r: Option<nat>)
    ensures r.Some? ==> r.value < |accounts| && accounts[r.value].pk == pk
    ensures r.Some? ==> forall j :: r.value < j < |accounts| ==> accounts[j].pk != pk
    ensures r.None? ==> forall j :: 0 <= j < |accounts| ==> accounts[j].pk != pk
  {
    if accounts == [] then None
    else if accounts[|accounts| - 1].pk == pk then Some(|accounts| - 1)
    else LastWithPk(accounts[..|accounts| - 1], pk)
  }

  /** A username key and an id key never coincide, and each kind of key determines what it was built from. */
  lemma KeysDistinct(cls: string, u: Option<string>, v: Option<string>, pk: int, pk': int)
    ensures UsernameKey(cls, u) != IdKey(cls, pk')
    ensures UsernameKey(cls, u) == UsernameKey(cls, v) <==> FormatOptional(u) == FormatOptional(v)
    ensures IdKey(cls, pk) == IdKey(cls, pk') <==> pk == pk'
  {
    assert UsernameKey(cls, u)[|cls| + 1] == 'u';
    assert IdKey(cls, pk')[|cls| + 1] == 'i';
    var p := cls + ":username:";
    if UsernameKey(cls, u) == UsernameKey(cls, v) {
      assert FormatOptional(u) == UsernameKey(cls, u)[|p|..];
      assert FormatOptional(v) == UsernameKey(cls, v)[|p|..];
    }
    var q := cls + ":id:";
    if IdKey(cls, pk) == IdKey(cls, pk') {
      assert IntToString(pk) == IdKey(cls, pk)[|q|..];
      assert IntToString(pk') == IdKey(cls, pk')[|q|..];
      IntToStringInjective(pk, pk');
    }
  }

  /**
   * The username key of `name` holds the primary key of the last account
   * whose username renders as `name`; with no such account it keeps its
   * old value (or stays absent).
   */
  lemma {:induction false} SyncedUsername(entries: map<string, CacheValue>, cls: string, accounts: seq<Account>, u: Option<string>)
    ensures var r := Synced(entries, cls, accounts);
      var k := UsernameKey(cls, u);
      match LastWithUsername(accounts, FormatOptional(u))
      case Some(i) => k in r && r[k] == CInt(accounts[i].pk)
      case None => (k in r <==> k in entries) && (k in entries ==> r[k] == entries[k])
  {
    if accounts != [] {
      var init := accounts[..|accounts| - 1];
      var a := accounts[|accounts| - 1];
      SyncedUsername(entries, cls, init, u);
      KeysDistinct(cls, u, a.username, 0, a.pk);
      if FormatOptional(a.username) != FormatOptional(u) {
        assert LastWithUsername(accounts, FormatOptional(u)) == LastWithUsername(init, FormatOptional(u));
      }
    }
  }

  /**
   * The id key of `pk` holds the username of the last account with that
   * primary key; with no such account it keeps its old value (or stays
   * absent).
   */
  lemma {:induction false} SyncedId(entries: map<string, CacheValue>, cls: string, accounts: seq<Account>, pk: int)
    ensures var r := Synced(entries, cls, accounts);
      var k := IdKey(cls, pk);
      match LastWithPk(accounts, pk)
      case Some(i) => k in r && r[k] == UsernameValue(accounts[i].username)
      case None => (k in r <==> k in entries) && (k in entries ==> r[k] == entries[k])
  {
    if accounts != [] {
      var init := accounts[..|accounts| - 1];
      var a := accounts[|accounts| - 1];
      SyncedId(entries, cls, init, pk);
      var k := IdKey(cls, pk);
      var mid := Synced(entries, cls, init);
      KeysDistinct(cls, a.username, None, pk, a.pk);
      KeysDistinct(cls, a.username, None, a.pk, pk);
      assert Synced(entries, cls, accounts) == mid[UsernameKey(cls, a.username) := CInt(a.pk)][IdKey(cls, a.pk) := UsernameValue(a.username)];
      if a.pk != pk {
        assert k != IdKey(cls, a.pk) && k != UsernameKey(cls, a.username);
        assert LastWithPk(accounts, pk) == LastWithPk(init, pk);
      }
    }
  }

  /** Writing accounts of one class leaves every key outside that class's prefix as it was. */
  lemma {:induction false} SyncedKeepsOtherClasses(entries: map<string, CacheValue>, cls: string, accounts: seq<Account>, k: string)
    requires !(cls + ":" <= k)
    ensures var r := Synced(entries, cls, accounts);
      (k in r <==> k in entries) && (k in entries ==> r[k] == entries[k])
  {
    if accounts != [] {
      var a := accounts[|accounts| - 1];
      SyncedKeepsOtherClasses(entries, cls, accounts[..|accounts| - 1], k);
      assert (cls + ":") <= UsernameKey(cls, a.username);
      assert (cls + ":") <= IdKey(cls, a.pk);
    }
  }

  /**
   * After the Celery task, a person's username key holds the primary key of the
   * last person listed with that username: students, written later, never
   * overwrite person keys.
   */
  lemma PersonUsernameLastWins(entries: map<string, CacheValue>, persons: seq<Person>, students: seq<Student>, i: nat)
    requires i < |persons|
    requires forall j :: i < j < |persons| ==> FormatOptional(persons[j].username) != FormatOptional(persons[i].username)
    ensures var r := UsernamesSpec(entries, persons, students);
      var k := UsernameKey("Person", persons[i].username);
      k in r && r[k] == CInt(persons[i].id)
  {
    var accounts := PersonAccounts(persons);
    var k := UsernameKey("Person", persons[i].username);
    SyncedUsername(entries, "Person", accounts, persons[i].username);
    var last := LastWithUsername(accounts, FormatOptional(persons[i].username));
    assert last == Some(i) by {
      assert FormatOptional(accounts[i].username) == FormatOptional(persons[i].username);
      if last.None? {
      } else if last.value < i {
      }
    }
    assert k[0] == 'P';
    assert !("Student:" <= k) by { assert "Student:"[0] == 'S'; }
    SyncedKeepsOtherClasses(Synced(entries, "Person", accounts), "Student", StudentAccounts(students), k);
  }

  /** A person without username and a person whose username is the text "None" share one cache key. */
  lemma NoneUsernameCollides()
    ensures UsernameKey("Person", None) == UsernameKey("Person", Some("None"))
  {
  }
}
