/** Applying one row update to a snapshot (`applyUpdate`), and what a
    sequence of such applications amounts to: which later writes override
    earlier ones, and which pairs of updates can be swapped. */
module RowUpdates {
  import opened KeyedSeq
  import opened AppData

  /** The list operation the `file` and `file_state` tables share: delete
      every entry with the row's key, replace every entry with the row's key,
      or append the row. */
  function ApplyKeyed<T(!new), K(==)>(s: seq<T>, key: T -> K, event: Event, row: T): (r: seq<T>)
    ensures event == Delete ==> forall x :: x in r <==> x in s && key(x) != key(row)
    ensures event == Update ==>
      && |r| == |s|
      && (forall i :: 0 <= i < |s| && key(s[i]) == key(row) ==> r[i] == row)
      && (forall i :: 0 <= i < |s| && key(s[i]) != key(row) ==> r[i] == s[i])
    ensures event == Insert ==> |r| == |s| + 1 && r[..|s|] == s && r[|s|] == row
    ensures event != Insert && !HasKey(s, key, key(row)) ==> r == s
  {
    match event
    case Delete => Without(s, key, {key(row)})
    case Update => Replace(s, key, row)
    case Insert => s + [row]
  }

  /** `applyUpdate`: a `user` row fills the user slot whatever the event,
      `file` rows are matched by id, `file_state` rows by file and user id;
      the containers the row does not belong to are returned as they were. */
  function ApplyUpdate(prev: StoreData, u: RowUpdate): (r: StoreData)
    ensures u.table() == UserTable ==> r == prev.(user := Some(u.row.user))
    ensures u.table() == FileTable ==>
      && r.user == prev.user && r.fileStates == prev.fileStates
      && r.files == ApplyKeyed(prev.files, FileKey, u.event, u.row.file)
    ensures u.table() == FileStateTable ==>
      && r.user == prev.user && r.files == prev.files
      && r.fileStates == ApplyKeyed(prev.fileStates, FileStateKey, u.event, u.row.fileState)
  {
    match u.row
    case UserRow(user) => prev.(user := Some(user))
    case FileRow(file) => prev.(files := ApplyKeyed(prev.files, FileKey, u.event, file))
    case FileStateRow(fileState) =>
      prev.(fileStates := ApplyKeyed(prev.fileStates, FileStateKey, u.event, fileState))
  }

  /** A `file_state` entry that agrees with the row on only one of `fileId`
      and `userId` survives a delete and is left as it was by an update. */
  lemma FileStateMatchNeedsBothIds(prev: StoreData, u: RowUpdate, i: nat)
    requires u.row.FileStateRow? && u.event != Insert
    requires i < |prev.fileStates|
    requires prev.fileStates[i].fileId != u.row.fileState.fileId
          || prev.fileStates[i].userId != u.row.fileState.userId
    ensures prev.fileStates[i] in ApplyUpdate(prev, u).fileStates
    ensures u.event == Update ==> ApplyUpdate(prev, u).fileStates[i] == prev.fileStates[i]
  {
  }

  /** The update inserts a key that its table already holds. */
  ghost predicate InsertsExistingKey(d: StoreData, u: RowUpdate) {
    u.event == Insert &&
    match u.row
    case UserRow(_) => false
    case FileRow(f) => HasKey(d.files, FileKey, f.id)
    case FileStateRow(fs) => HasKey(d.fileStates, FileStateKey, FileStateKey(fs))
  }

  lemma ApplyKeyedKeepsUniqueKeys<T(!new), K>(s: seq<T>, key: T -> K, event: Event, row: T)
    requires UniqueKeys(s, key)
    ensures UniqueKeys(ApplyKeyed(s, key, event, row), key)
        <==> !(event == Insert && HasKey(s, key, key(row)))
  {
    match event
    case Delete => WithoutKeepsUniqueKeys(s, key, {key(row)});
    case Update =>
      var r := Replace(s, key, row);
      assert forall i :: 0 <= i < |s| ==> key(r[i]) == key(s[i]);
    case Insert => AppendUniqueKeys(s, key, row);
  }

  /** Keys stay unique under every update except an insert of a key that is
      already present, which always creates a duplicate. */
  lemma ApplyUpdateKeepsWellKeyed(prev: StoreData, u: RowUpdate)
    requires WellKeyed(prev)
    ensures WellKeyed(ApplyUpdate(prev, u)) <==> !InsertsExistingKey(prev, u)
  {
    match u.row
    case UserRow(_) =>
    case FileRow(f) => ApplyKeyedKeepsUniqueKeys(prev.files, FileKey, u.event, f);
    case FileStateRow(fs) =>
      ApplyKeyedKeepsUniqueKeys(prev.fileStates, FileStateKey, u.event, fs);
  }

  /** The two rows belong to the same keyed table and carry the same key. */
  predicate SameKey(a: Row, b: Row) {
    match (a, b)
    case (FileRow(f), FileRow(g)) => f.id == g.id
    case (FileStateRow(f), FileStateRow(g)) => f.fileId == g.fileId && f.userId == g.userId
    case _ => false
  }

  /** `later`, applied after `earlier`, makes `earlier` irrelevant: any two
      user rows; a delete after any write to its key; an update after an
      update of its key. */
  predicate Overrides(earlier: RowUpdate, later: RowUpdate) {
    || (earlier.row.UserRow? && later.row.UserRow?)
    || (SameKey(earlier.row, later.row) &&
        (later.event == Delete || (earlier.event == Update && later.event == Update)))
  }

  lemma ApplyKeyedLaterWins<T(!new), K>(s: seq<T>, key: T -> K, e1: Event, r1: T, e2: Event, r2: T)
    requires key(r1) == key(r2)
    requires e2 == Delete || (e1 == Update && e2 == Update)
    ensures ApplyKeyed(ApplyKeyed(s, key, e1, r1), key, e2, r2) == ApplyKeyed(s, key, e2, r2)
  {
    var k := {key(r2)};
    match e1
    case Delete =>
      WithoutWithout(s, key, k, k);
      assert k + k == k;
    case Update =>
      if e2 == Delete {
        WithoutReplace(s, key, r1, k);
      } else {
        ReplaceReplace(s, key, r1, r2);
      }
    case Insert =>
      WithoutAppend(s, [r1], key, k);
      assert Without([r1], key, k) == [];
  }

  /** Last write wins: an overridden update leaves no trace. */
  lemma LaterWriteWins(d: StoreData, earlier: RowUpdate, later: RowUpdate)
    requires Overrides(earlier, later)
    ensures ApplyUpdate(ApplyUpdate(d, earlier), later) == ApplyUpdate(d, later)
  {
    match (earlier.row, later.row)
    case (UserRow(_), UserRow(_)) =>
    case (FileRow(f), FileRow(g)) =>
      ApplyKeyedLaterWins(d.files, FileKey, earlier.event, f, later.event, g);
    case (FileStateRow(f), FileStateRow(g)) =>
      ApplyKeyedLaterWins(d.fileStates, FileStateKey, earlier.event, f, later.event, g);
  }

  /** `a` and `b` can differ only in what a later delete (`event == Delete`)
      or update (otherwise) of key `k` will overwrite: for a delete, they
      agree once `k` is filtered out; for an update, they carry the same key
      at every position and the same entry wherever that key is not `k`. */
  ghost predicate AgreeOffKey<T(!new), K>(a: seq<T>, b: seq<T>, key: T -> K, k: K, event: Event) {
    if event == Delete then Without(a, key, {k}) == Without(b, key, {k})
    else SameOffKey(a, b, key, k)
  }

  ghost predicate SameOffKey<T, K>(a: seq<T>, b: seq<T>, key: T -> K, k: K) {
    && |a| == |b|
    && (forall i :: 0 <= i < |a| ==> key(a[i]) == key(b[i]))
    && (forall i :: 0 <= i < |a| && key(a[i]) != k ==> a[i] == b[i])
  }

  lemma SameOffKeyConcat<T, K>(a1: seq<T>, b1: seq<T>, a2: seq<T>, b2: seq<T>, key: T -> K, k: K)
    requires SameOffKey(a1, b1, key, k) && SameOffKey(a2, b2, key, k)
    ensures SameOffKey(a1 + a2, b1 + b2, key, k)
  {
  }

  /** A write to key `k` leaves the list agreeing with the old one off `k`,
      for the later event that overrides it. */
  lemma AgreeOffKeyStart<T(!new), K>(s: seq<T>, key: T -> K, e1: Event, r1: T, e2: Event, r2: T)
    requires key(r1) == key(r2)
    requires e2 == Delete || (e1 == Update && e2 == Update)
    ensures AgreeOffKey(ApplyKeyed(s, key, e1, r1), s, key, key(r2), e2)
  {
    if e2 == Delete {
      ApplyKeyedLaterWins(s, key, e1, r1, e2, r2);
    }
  }

  /** The same delete, update or insert keeps two lists agreeing off `k`. */
  lemma {:induction false} AgreeOffKeyStep<T(!new), K>(a: seq<T>, b: seq<T>, key: T -> K, k: K,
                                                      event: Event, ev: Event, r: T)
    requires AgreeOffKey(a, b, key, k, event)
    ensures AgreeOffKey(ApplyKeyed(a, key, ev, r), ApplyKeyed(b, key, ev, r), key, k, event)
  {
    var d := {k};
    if event == Delete {
      match ev
      case Delete =>
        WithoutWithout(a, key, {key(r)}, d);
        WithoutWithout(b, key, {key(r)}, d);
        WithoutWithout(a, key, d, {key(r)});
        WithoutWithout(b, key, d, {key(r)});
        assert {key(r)} + d == d + {key(r)};
      case Update =>
        WithoutReplace(a, key, r, d);
        WithoutReplace(b, key, r, d);
      case Insert =>
        WithoutAppend(a, [r], key, d);
        WithoutAppend(b, [r], key, d);
    } else if ev == Delete {
      AgreeOffKeyWithout(a, b, key, k, event, {key(r)});
    }
  }

  lemma {:induction false} AgreeOffKeyWithout<T(!new), K>(a: seq<T>, b: seq<T>, key: T -> K, k: K,
                                                         event: Event, drop: set<K>)
    requires event != Delete && AgreeOffKey(a, b, key, k, event)
    ensures AgreeOffKey(Without(a, key, drop), Without(b, key, drop), key, k, event)
  {
    if a != [] {
      assert key(a[0]) == key(b[0]);
      assert key(a[0]) != k ==> a[0] == b[0];
      assert SameOffKey(a[1..], b[1..], key, k);
      AgreeOffKeyWithout(a[1..], b[1..], key, k, event, drop);
      var ha := if key(a[0]) in drop then [] else [a[0]];
      var hb := if key(b[0]) in drop then [] else [b[0]];
      assert SameOffKey(ha, hb, key, k);
      SameOffKeyConcat(ha, hb, Without(a[1..], key, drop), Without(b[1..], key, drop), key, k);
    }
  }

  /** Lists that agree off `k` become equal once `k` is deleted or updated. */
  lemma AgreeOffKeyFinish<T(!new), K>(a: seq<T>, b: seq<T>, key: T -> K, event: Event, row: T)
    requires event != Insert && AgreeOffKey(a, b, key, key(row), event)
    ensures ApplyKeyed(a, key, event, row) == ApplyKeyed(b, key, event, row)
  {
  }

  /** `a` and `b` can differ only in what `later` will overwrite: the user
      slot for a user row, the entries of its key otherwise. */
  ghost predicate AgreeOffWrite(a: StoreData, b: StoreData, later: RowUpdate) {
    match later.row
    case UserRow(_) => a.files == b.files && a.fileStates == b.fileStates
    case FileRow(f) =>
      && a.user == b.user && a.fileStates == b.fileStates
      && AgreeOffKey(a.files, b.files, FileKey, f.id, later.event)
    case FileStateRow(fs) =>
      && a.user == b.user && a.files == b.files
      && AgreeOffKey(a.fileStates, b.fileStates, FileStateKey, FileStateKey(fs), later.event)
  }

  lemma AgreeOffWriteStart(d: StoreData, earlier: RowUpdate, later: RowUpdate)
    requires Overrides(earlier, later)
    ensures AgreeOffWrite(ApplyUpdate(d, earlier), d, later)
  {
    match (earlier.row, later.row)
    case (UserRow(_), UserRow(_)) =>
    case (FileRow(f), FileRow(g)) =>
      AgreeOffKeyStart(d.files, FileKey, earlier.event, f, later.event, g);
    case (FileStateRow(f), FileStateRow(g)) =>
      AgreeOffKeyStart(d.fileStates, FileStateKey, earlier.event, f, later.event, g);
  }

  lemma AgreeOffWriteStep(a: StoreData, b: StoreData, later: RowUpdate, u: RowUpdate)
    requires AgreeOffWrite(a, b, later)
    ensures AgreeOffWrite(ApplyUpdate(a, u), ApplyUpdate(b, u), later)
  {
    match (later.row, u.row)
    case (FileRow(f), FileRow(g)) =>
      AgreeOffKeyStep(a.files, b.files, FileKey, f.id, later.event, u.event, g);
    case (FileStateRow(f), FileStateRow(g)) =>
      AgreeOffKeyStep(a.fileStates, b.fileStates, FileStateKey, FileStateKey(f), later.event, u.event, g);
    case _ =>
  }

  lemma AgreeOffWriteFinish(a: StoreData, b: StoreData, later: RowUpdate)
    requires later.row.UserRow? || later.event != Insert
    requires AgreeOffWrite(a, b, later)
    ensures ApplyUpdate(a, later) == ApplyUpdate(b, later)
  {
  }

  /** Appending commutes with a delete or an update of a different key. */
  lemma ApplyKeyedPastInsert<T(!new), K>(s: seq<T>, key: T -> K, e: Event, r: T, ins: T)
    requires key(r) != key(ins) && e != Insert
    ensures ApplyKeyed(s + [ins], key, e, r) == ApplyKeyed(s, key, e, r) + [ins]
  {
    if e == Delete {
      WithoutAppend(s, [ins], key, {key(r)});
    } else {
      ReplaceAppend(s, [ins], key, r);
      assert Replace([ins], key, r)[0] == ins;
    }
  }

  lemma ApplyKeyedCommute<T(!new), K>(s: seq<T>, key: T -> K, e1: Event, r1: T, e2: Event, r2: T)
    requires key(r1) != key(r2) && !(e1 == Insert && e2 == Insert)
    ensures ApplyKeyed(ApplyKeyed(s, key, e1, r1), key, e2, r2)
         == ApplyKeyed(ApplyKeyed(s, key, e2, r2), key, e1, r1)
  {
    var k1, k2 := {key(r1)}, {key(r2)};
    match (e1, e2)
    case (Delete, Delete) =>
      WithoutWithout(s, key, k1, k2);
      WithoutWithout(s, key, k2, k1);
      assert k1 + k2 == k2 + k1;
    case (Delete, Update) => WithoutReplace(s, key, r2, k1);
    case (Update, Delete) => WithoutReplace(s, key, r1, k2);
    case (Update, Update) => ReplaceReplace(s, key, r1, r2);
    case (Insert, _) => ApplyKeyedPastInsert(s, key, e2, r2, r1);
    case (_, Insert) => ApplyKeyedPastInsert(s, key, e1, r1, r2);
  }

  /** Two updates whose order cannot matter: different tables, or different
      keys of one keyed table unless both append. */
  predicate Independent(a: RowUpdate, b: RowUpdate) {
    || a.table() != b.table()
    || (a.table() != UserTable && !SameKey(a.row, b.row) &&
        !(a.event == Insert && b.event == Insert))
  }

  /** Independent updates give the same snapshot in either order. */
  lemma IndependentUpdatesCommute(d: StoreData, a: RowUpdate, b: RowUpdate)
    requires Independent(a, b)
    ensures ApplyUpdate(ApplyUpdate(d, a), b) == ApplyUpdate(ApplyUpdate(d, b), a)
  {
    match (a.row, b.row)
    case (FileRow(f), FileRow(g)) =>
      ApplyKeyedCommute(d.files, FileKey, a.event, f, b.event, g);
    case (FileStateRow(f), FileStateRow(g)) =>
      ApplyKeyedCommute(d.fileStates, FileStateKey, a.event, f, b.event, g);
    case _ =>
  }

  /** Two inserts into one table never commute, even on different keys: the
      list records the order in which they were appended. */
  lemma InsertsDoNotCommute(d: StoreData, f: File, g: File)
    requires f != g
    ensures ApplyUpdate(ApplyUpdate(d, RowUpdate(Insert, FileRow(f))), RowUpdate(Insert, FileRow(g)))
         != ApplyUpdate(ApplyUpdate(d, RowUpdate(Insert, FileRow(g))), RowUpdate(Insert, FileRow(f)))
  {
  }

  /** Two different updates of a present file never commute: the one applied
      last is the one that stays. */
  lemma UpdatesOfOneFileDoNotCommute(d: StoreData, x: File, y: File)
    requires HasKey(d.files, FileKey, x.id) && x.id == y.id && x != y
    ensures ApplyUpdate(ApplyUpdate(d, RowUpdate(Update, FileRow(y))), RowUpdate(Update, FileRow(x)))
         != ApplyUpdate(ApplyUpdate(d, RowUpdate(Update, FileRow(x))), RowUpdate(Update, FileRow(y)))
  {
    var k :| 0 <= k < |d.files| && FileKey(d.files[k]) == x.id;
    var yx := ApplyKeyed(ApplyKeyed(d.files, FileKey, Update, y), FileKey, Update, x);
    var xy := ApplyKeyed(ApplyKeyed(d.files, FileKey, Update, x), FileKey, Update, y);
    UpdateTwiceAt(d.files, FileKey, y, x, k);
    UpdateTwiceAt(d.files, FileKey, x, y, k);
    assert yx[k] != xy[k];
  }

  /** At a position carrying the key of two updates, the second one stays. */
  lemma UpdateTwiceAt<T(!new), K>(s: seq<T>, key: T -> K, first: T, second: T, k: nat)
    requires k < |s| && key(s[k]) == key(first) == key(second)
    ensures ApplyKeyed(ApplyKeyed(s, key, Update, first), key, Update, second)[k] == second
  {
    var once := ApplyKeyed(s, key, Update, first);
    assert once[k] == first;
  }

  /** Writes to one key are order-sensitive: inserting a new file and then
      deleting it leaves the files as they were, while the other order keeps it. */
  lemma InsertDeleteOrderMatters(d: StoreData, f: File)
    requires !HasKey(d.files, FileKey, f.id)
    ensures ApplyUpdate(ApplyUpdate(d, RowUpdate(Insert, FileRow(f))), RowUpdate(Delete, FileRow(f))).files
         == d.files
    ensures ApplyUpdate(ApplyUpdate(d, RowUpdate(Delete, FileRow(f))), RowUpdate(Insert, FileRow(f))).files
         == d.files + [f]
  {
    LaterWriteWins(d, RowUpdate(Insert, FileRow(f)), RowUpdate(Delete, FileRow(f)));
  }
}
