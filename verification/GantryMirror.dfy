/** The in-memory mirror of the racks' live state (server/core/state.py). */
module GantryMirror {
  import opened Prelude
  import opened RackProtocol

  /** The mirrored fields that other parts of the server act on. */
  datatype RackState = RackState(
    lockHolder: Option<string>, lockType: Option<LockType>, lockExpiresAt: Option<int>,
    mqttStatus: string, piOnline: bool, scanState: string, maintenanceRequired: bool,
    gridRows: Option<int>, gridCols: Option<int>, updatedAt: Option<int>)

  const NEW_STATE := RackState(None, None, None, "offline", false, "idle", false, None, None, None)

  /** One keyword argument of `upsert`. */
  datatype Field =
    | Holder(holder: Option<string>)
    | Kind(kind: Option<LockType>)
    | ExpiresAt(expiresAt: Option<int>)
    | MqttStatus(status: string)
    | PiOnline(online: bool)
    | ScanState(state: string)
    | MaintenanceRequired(required: bool)
    | GridRows(rows: Option<int>)
    | GridCols(cols: Option<int>)
    | UpdatedAt(at: Option<int>)
    | UnknownKey(key: string)

  function SetField(s: RackState, f: Field): RackState {
    match f
    case Holder(h) => s.(lockHolder := h)
    case Kind(k) => s.(lockType := k)
    case ExpiresAt(e) => s.(lockExpiresAt := e)
    case MqttStatus(m) => s.(mqttStatus := m)
    case PiOnline(p) => s.(piOnline := p)
    case ScanState(c) => s.(scanState := c)
    case MaintenanceRequired(m) => s.(maintenanceRequired := m)
    case GridRows(r) => s.(gridRows := r)
    case GridCols(c) => s.(gridCols := c)
    case UpdatedAt(u) => s.(updatedAt := u)
    case UnknownKey(_) => s
  }

  function SetFields(s: RackState, fields: seq<Field>): RackState
    decreases |fields|
  {
    if fields == [] then s else SetFields(SetField(s, fields[0]), fields[1..])
  }

  /** What every upsert does last, whatever it was given. */
  function Refresh(s: RackState, now: int): RackState {
    s.(piOnline := s.mqttStatus == "online", updatedAt := Some(now))
  }

  // ---- What an upsert shows ---------------------------------------------------------

  /** Two arguments for the same field. */
  predicate SameField(f: Field, g: Field) {
    match f
    case Holder(_) => g.Holder?
    case Kind(_) => g.Kind?
    case ExpiresAt(_) => g.ExpiresAt?
    case MqttStatus(_) => g.MqttStatus?
    case PiOnline(_) => g.PiOnline?
    case ScanState(_) => g.ScanState?
    case MaintenanceRequired(_) => g.MaintenanceRequired?
    case GridRows(_) => g.GridRows?
    case GridCols(_) => g.GridCols?
    case UpdatedAt(_) => g.UpdatedAt?
    case UnknownKey(_) => g.UnknownKey?
  }

  /** A field that no argument is for. */
  predicate NotGiven(fields: seq<Field>, f: Field) {
    forall j :: 0 <= j < |fields| ==> !SameField(f, fields[j])
  }

  /** The two entries agree in the field. */
  predicate Agree(a: RackState, b: RackState, f: Field) {
    match f
    case Holder(_) => a.lockHolder == b.lockHolder
    case Kind(_) => a.lockType == b.lockType
    case ExpiresAt(_) => a.lockExpiresAt == b.lockExpiresAt
    case MqttStatus(_) => a.mqttStatus == b.mqttStatus
    case ScanState(_) => a.scanState == b.scanState
    case MaintenanceRequired(_) => a.maintenanceRequired == b.maintenanceRequired
    case GridRows(_) => a.gridRows == b.gridRows
    case GridCols(_) => a.gridCols == b.gridCols
    case _ => true
  }

  lemma OtherFieldStays(s: RackState, f: Field, g: Field)
    requires !SameField(f, g)
    ensures Agree(SetField(s, g), s, f)
  {
  }

  lemma AgreeOnward(a: RackState, b: RackState, c: RackState, f: Field)
    requires Agree(a, b, f) && Agree(b, c, f)
    ensures Agree(a, c, f)
  {
  }

  lemma {:induction false} StaysInFields(s: RackState, fields: seq<Field>, f: Field)
    requires NotGiven(fields, f)
    ensures Agree(SetFields(s, fields), s, f)
    decreases |fields|
  {
    hide SetField, SameField;
    if fields != [] {
      var next := SetField(s, fields[0]);
      StaysInFields(next, fields[1..], f);
      OtherFieldStays(s, f, fields[0]);
      AgreeOnward(SetFields(s, fields), next, s, f);
    }
  }

  /** A field that was not given stays as it was. */
  lemma NotGivenStays(s: RackState, fields: seq<Field>, f: Field, now: int)
    requires NotGiven(fields, f)
    ensures Agree(Refresh(SetFields(s, fields), now), s, f)
  {
    StaysInFields(s, fields, f);
  }

  /** The entry shows the value that was given for a field. */
  predicate Shows(e: RackState, f: Field) {
    match f
    case Holder(h) => e.lockHolder == h
    case Kind(k) => e.lockType == k
    case ExpiresAt(x) => e.lockExpiresAt == x
    case MqttStatus(m) => e.mqttStatus == m
    case ScanState(c) => e.scanState == c
    case MaintenanceRequired(m) => e.maintenanceRequired == m
    case GridRows(r) => e.gridRows == r
    case GridCols(c) => e.gridCols == c
    case _ => true
  }

  /** After an upsert a field shows the last value given for it; `updated_at` is the time of the upsert
      and `pi_online` follows the status, whatever was given for these two. */
  lemma {:induction false} LastGivenShows(s: RackState, fields: seq<Field>, i: nat, now: int)
    requires i < |fields| && NotGiven(fields[i + 1..], fields[i])
    ensures var e := Refresh(SetFields(s, fields), now);
      Shows(e, fields[i]) && e.updatedAt == Some(now) && (e.piOnline <==> e.mqttStatus == "online")
    decreases i
  {
    hide SameField;
    if i > 0 {
      assert fields[1..][i..] == fields[i + 1..];
      LastGivenShows(SetField(s, fields[0]), fields[1..], i - 1, now);
    } else {
      StaysInFields(SetField(s, fields[0]), fields[1..], fields[0]);
    }
  }

  /** A rack heard of for the first time is offline, idle, unlocked and needs no maintenance. */
  lemma FirstUpsert(now: int)
    ensures Refresh(SetFields(NEW_STATE, []), now)
      == RackState(None, None, None, "offline", false, "idle", false, None, None, Some(now))
  {
  }

  /** A row of the `racks` table, as far as it is mirrored. */
  datatype DbRack = DbRack(id: string, state: RackState)

  /** `reconcile_from_db` for one rack: the row wins unless the entry is strictly newer. */
  function Reconciled(entry: Option<RackState>, row: RackState): RackState {
    if entry.None? || entry.value.updatedAt.None? || row.updatedAt.None?
       || row.updatedAt.value >= entry.value.updatedAt.value
    then row.(piOnline := row.mqttStatus == "online")
    else entry.value
  }

  function Lookup(racks: map<string, RackState>, id: string): Option<RackState> {
    if id in racks then Some(racks[id]) else None
  }

  /** The entry of one rack after reconciling with a list of rows. */
  function EntryAfter(entry: Option<RackState>, rows: seq<DbRack>, id: string): Option<RackState> {
    if rows == [] then entry
    else
      var before := EntryAfter(entry, rows[..|rows| - 1], id);
      var last := rows[|rows| - 1];
      if last.id == id then Some(Reconciled(before, last.state)) else before
  }

  /** Reconciling with the table: a rack in it gets its row unless its entry is strictly newer;
      a rack not in it keeps its entry. */
  lemma {:induction false} OneRowPerRack(entry: Option<RackState>, rows: seq<DbRack>, id: string, k: nat)
    requires forall i, j :: 0 <= i < j < |rows| ==> rows[i].id != rows[j].id
    ensures k < |rows| && rows[k].id == id ==>
      EntryAfter(entry, rows, id) == Some(Reconciled(entry, rows[k].state))
    ensures (forall i :: 0 <= i < |rows| ==> rows[i].id != id) ==> EntryAfter(entry, rows, id) == entry
  {
    if rows != [] {
      OneRowPerRack(entry, rows[..|rows| - 1], id, k);
    }
  }

  function LockOf(s: RackState): MirrorLock {
    MirrorLock(s.lockHolder, s.lockType, s.lockExpiresAt)
  }

  class GantryState {
    var racks: map<string, RackState>

    /** The state shown for a rack; an unknown rack shows the defaults. */
    ghost function Shown(id: string): RackState
      reads this
    {
      if id in racks then racks[id] else NEW_STATE
    }

    ghost function LockShown(id: string): MirrorLock
      reads this
    {
      LockOf(Shown(id))
    }

    /** `pi_online` is derived from `mqtt_status` in every entry. */
    ghost predicate Valid()
      reads this
    {
      forall id :: id in racks ==> racks[id].piOnline == (racks[id].mqttStatus == "online")
    }

    constructor ()
      ensures Valid() && racks == map[]
    {
      racks := map[];
    }

    method Upsert(id: string, fields: seq<Field>, now: int)
      requires Valid()
      modifies this
      ensures Valid()
      ensures racks == old(racks)[id := Refresh(SetFields(old(Shown(id)), fields), now)]
    {
      if id !in racks {
        racks := racks[id := NEW_STATE];
      }
      var state := racks[id];
      var i := 0;
      while i < |fields|
        invariant 0 <= i <= |fields|
        invariant SetFields(state, fields[i..]) == SetFields(old(Shown(id)), fields)
      {
        state := SetField(state, fields[i]);
        i := i + 1;
      }
      racks := racks[id := Refresh(state, now)];
    }

    method ReconcileFromDb(rows: seq<DbRack>)
      requires Valid()
      modifies this
      ensures Valid()
      ensures forall id :: Lookup(racks, id) == EntryAfter(Lookup(old(racks), id), rows, id)
    {
      var k := 0;
      while k < |rows|
        invariant 0 <= k <= |rows|
        invariant Valid()
        invariant forall id :: Lookup(racks, id) == EntryAfter(Lookup(old(racks), id), rows[..k], id)
      {
        var row := rows[k];
        var existing := Lookup(racks, row.id);
        var shouldOverwrite :=
          existing.None? || existing.value.updatedAt.None? || row.state.updatedAt.None?
          || row.state.updatedAt.value >= existing.value.updatedAt.value;
        ghost var before := racks;
        if shouldOverwrite {
          racks := racks[row.id := row.state.(piOnline := row.state.mqttStatus == "online")];
        }
        assert Lookup(racks, row.id) == Some(Reconciled(existing, row.state));
        k := k + 1;
        assert rows[..k][..k - 1] == rows[..k - 1];
      }
      assert rows[..k] == rows;
    }
  }

  /** What reconciling makes of a row that wins. */
  function Taken(row: RackState): RackState {
    row.(piOnline := row.mqttStatus == "online")
  }

  predicate NewerThan(entry: Option<RackState>, at: int) {
    entry.Some? && entry.value.updatedAt.Some? && entry.value.updatedAt.value > at
  }

  /** Reconciling is idempotent. Two snapshots give the same result in either order iff they are
      dated and their dates differ, or are the same but older than the entry, or they agree; so
      of two with one date, or of which one is undated, the one applied last wins. */
  lemma LastWriteWins(entry: Option<RackState>, a: RackState, b: RackState)
    ensures Reconciled(Some(Reconciled(entry, a)), a) == Reconciled(entry, a)
    ensures Reconciled(Some(Reconciled(entry, a)), b) == Reconciled(Some(Reconciled(entry, b)), a) <==>
      || Taken(a) == Taken(b)
      || (a.updatedAt.Some? && b.updatedAt.Some?
          && (a.updatedAt != b.updatedAt || NewerThan(entry, a.updatedAt.value)))
  {
  }

  // ---- Snapshots taken before a lock changed ----------------------------------------

  /** A lock operation writes the row and the entry, and dates both. */
  datatype LockWrite = LockWrite(lock: MirrorLock, at: int)

  function WithLock(s: RackState, w: LockWrite): RackState {
    s.(lockHolder := w.lock.holder, lockType := w.lock.kind, lockExpiresAt := w.lock.expiresAt, updatedAt := Some(w.at))
  }

  function RowAfter(row: RackState, writes: seq<LockWrite>): RackState {
    if writes == [] then row else WithLock(row, writes[|writes| - 1])
  }

  function EntryAfterWrites(entry: RackState, writes: seq<LockWrite>): RackState
    decreases |writes|
  {
    if writes == [] then entry
    else
      var last := writes[|writes| - 1];
      Refresh(WithLock(EntryAfterWrites(entry, writes[..|writes| - 1]), last), last.at)
  }

  /** A snapshot of the row, taken before some lock operations and reconciled after them, leaves
      the mirror showing the row's lock iff there were none, or the last of them is dated later
      than the snapshot, or set the lock that the snapshot shows. With a clock that has moved on
      in between, an old snapshot therefore does no harm. */
  lemma OldSnapshotHarmlessIff(entry: RackState, row: RackState, writes: seq<LockWrite>)
    requires LockOf(entry) == LockOf(row) && row.updatedAt.Some?
    requires forall i :: 0 <= i < |writes| ==> row.updatedAt.value <= writes[i].at
    ensures LockOf(Reconciled(Some(EntryAfterWrites(entry, writes)), row)) == LockOf(RowAfter(row, writes)) <==>
      || writes == []
      || writes[|writes| - 1].at > row.updatedAt.value
      || writes[|writes| - 1].lock == LockOf(row)
  {
    if writes != [] {
      var last := writes[|writes| - 1];
      assert LockOf(EntryAfterWrites(entry, writes)) == last.lock;
      assert EntryAfterWrites(entry, writes).updatedAt == Some(last.at);
    }
  }
}
