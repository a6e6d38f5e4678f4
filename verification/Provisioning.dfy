/** Provisioning of devices: the same serial gets the same identity, a new serial the next id. */
module Provisioning {
  import opened Prelude
  import opened DeviceIds

  datatype Credentials = Credentials(mqttPassword: string, presignKey: string, rtspPassword: string)

  /** The columns of a `racks` row that provisioning reads or writes. */
  datatype RackRow = RackRow(serial: string, piIp: Option<string>, username: string, credentials: Credentials)

  datatype Request = Request(secret: string, serial: string, piIp: Option<string>)

  datatype Reply = Unauthorized | Provisioned(id: string, username: string, credentials: Credentials)

  type Table = map<string, RackRow>

  /** At most one row has a given serial. */
  ghost predicate SerialsUnique(t: Table) {
    forall a, b :: a in t && b in t && t[a].serial == t[b].serial ==> a == b
  }

  predicate Knows(t: Table, serial: string) {
    exists id :: id in t && t[id].serial == serial
  }

  /** The id that a new device gets. */
  ghost predicate NextId(t: Table, id: string) {
    if t == map[] then id == Id(1)
    else exists last :: IsMax(t.Keys, last) && id == Id(NumberAfter(last))
  }

  /** What a provisioning request does to the table and answers. `credentials` are the random
      tokens that would be generated for a new device. */
  ghost predicate Provisions(t: Table, req: Request, secret: string, credentials: Credentials, t': Table,
    reply: Reply)
  {
    if req.secret != secret then t' == t && reply == Unauthorized
    else if Knows(t, req.serial) then
      exists id :: id in t && t[id].serial == req.serial
        && t' == t[id := t[id].(piIp := if NewIp(t[id].piIp, req.piIp) then req.piIp else t[id].piIp)]
        && reply == Provisioned(id, if t[id].username != "" then t[id].username else id, t[id].credentials)
    else
      exists id :: NextId(t, id)
        && t' == t[id := NewRow(t, id, req, credentials)]
        && reply == Provisioned(id, id, credentials)
  }

  predicate NewIp(known: Option<string>, given: Option<string>) {
    given.Some? && given.value != "" && known != given
  }

  /** `_upsert_rack`: a row that is already there keeps its address unless a new one is given. */
  function NewRow(t: Table, id: string, req: Request, credentials: Credentials): RackRow {
    RackRow(req.serial, if id in t && req.piIp.None? then t[id].piIp else req.piIp, id, credentials)
  }

  class Registry {
    const secret: string
    var racks: Table

    constructor (secret: string)
      ensures this.secret == secret && racks == map[]
    {
      this.secret, racks := secret, map[];
    }

    /** `provision_device`. */
    method ProvisionDevice(req: Request, credentials: Credentials) returns (reply: Reply)
      requires SerialsUnique(racks)
      modifies this
      ensures Provisions(old(racks), req, secret, credentials, racks, reply)
      ensures SerialsUnique(racks)
    {
      if req.secret != secret {
        return Unauthorized;
      }
      var existing := FindBySerial(req.serial);
      if existing.Some? {
        var id := existing.value;
        var row := racks[id];
        if NewIp(row.piIp, req.piIp) {
          racks := racks[id := row.(piIp := req.piIp)];
        } else {
          assert racks == racks[id := row];
        }
        return Provisioned(id, if row.username != "" then row.username else id, row.credentials);
      }
      var id := AssignDeviceId();
      racks := racks[id := NewRow(racks, id, req, credentials)];
      return Provisioned(id, id, credentials);
    }

    method FindBySerial(serial: string) returns (found: Option<string>)
      ensures found.Some? ==> found.value in racks && racks[found.value].serial == serial
      ensures found.None? ==> !Knows(racks, serial)
    {
      var todo := racks.Keys;
      while todo != {}
        invariant todo <= racks.Keys
        invariant forall id :: id in racks && id !in todo ==> racks[id].serial != serial
        decreases todo
      {
        var id :| id in todo;
        if racks[id].serial == serial {
          return Some(id);
        }
        todo := todo - {id};
      }
      return None;
    }

    /** `_assign_device_id`: the number after that of the last id in string order. */
    method AssignDeviceId() returns (id: string)
      ensures NextId(racks, id)
    {
      if racks == map[] {
        return Id(1);
      }
      var ids := racks.Keys;
      assert ids == {} ==> racks == map[];
      var last :| last in ids;
      var todo := ids - {last};
      LessIsStrict(last, last);
      while todo != {}
        invariant last in ids && todo <= ids
        invariant forall x :: x in ids && x !in todo ==> !Less(last, x)
        decreases todo
      {
        var x :| x in todo;
        if Less(last, x) {
          forall y | y in ids && y !in todo ensures !Less(x, y) {
            if Less(x, y) {
              LessIsTransitive(last, x, y);
            }
          }
          LessIsStrict(x, x);
          last := x;
        }
        todo := todo - {x};
        LessIsStrict(last, last);
      }
      id := Id(NumberAfter(last));
    }
  }

  // ---- Runs of requests -------------------------------------------------------------

  /** Requests of any kind, one after the other: refused, for a known serial, for a new one. */
  datatype Run = Run(
    secret: string, tables: seq<Table>, requests: seq<Request>, tokens: seq<Credentials>, replies: seq<Reply>) {
    function Length(): nat {
      |requests|
    }

    ghost predicate Proper() {
      && |tables| == |requests| + 1 && |tokens| == |replies| == |requests|
      && SerialsUnique(tables[0])
      && forall i {:trigger requests[i]} :: 0 <= i < |requests| ==>
           Provisions(tables[i], requests[i], secret, tokens[i], tables[i + 1], replies[i])
    }

    predicate Authorised(i: nat)
      requires i < |requests|
    {
      requests[i].secret == secret
    }

    /** Request i comes from a device that the table does not know. */
    predicate IsNew(i: nat)
      requires i < |requests| < |tables|
    {
      Authorised(i) && !Knows(tables[i], requests[i].serial)
    }

    /** How many of the first i requests were from new devices. */
    function News(i: nat): nat
      requires i <= |requests| < |tables|
    {
      if i == 0 then 0 else News(i - 1) + if IsNew(i - 1) then 1 else 0
    }
  }

  /** The row that a device with this serial and these credentials got as a new device. */
  ghost predicate Owns(t: Table, id: string, serial: string, credentials: Credentials) {
    id in t && t[id].serial == serial && t[id].credentials == credentials && t[id].username == id
  }

  /** One request, as the table sees it. */
  lemma StepTable(t: Table, req: Request, secret: string, credentials: Credentials, t': Table, reply: Reply)
    requires SerialsUnique(t) && Provisions(t, req, secret, credentials, t', reply)
    ensures SerialsUnique(t')
    ensures req.secret != secret ==> t' == t && reply == Unauthorized
    ensures req.secret == secret && Knows(t, req.serial) ==>
      && t'.Keys == t.Keys && reply.Provisioned? && reply.id in t && t[reply.id].serial == req.serial
      && reply.credentials == t[reply.id].credentials
      && reply.username == (if t[reply.id].username != "" then t[reply.id].username else reply.id)
      && forall id :: id in t ==> t'[id] == t[id].(piIp := t'[id].piIp)
    ensures req.secret == secret && !Knows(t, req.serial) ==>
      exists id :: NextId(t, id) && reply == Provisioned(id, id, credentials)
        && t' == t[id := NewRow(t, id, req, credentials)]
  {
    hide NextId;
    if req.secret == secret && Knows(t, req.serial) {
      var id :| id in t && t[id].serial == req.serial
        && t' == t[id := t[id].(piIp := if NewIp(t[id].piIp, req.piIp) then req.piIp else t[id].piIp)]
        && reply == Provisioned(id, if t[id].username != "" then t[id].username else id, t[id].credentials);
    }
  }

  lemma {:induction false} AllUnique(run: Run, i: nat)
    requires run.Proper() && i <= run.Length()
    ensures SerialsUnique(run.tables[i])
  {
    hide Provisions;
    if i > 0 {
      AllUnique(run, i - 1);
      assert run.requests[i - 1] == run.requests[i - 1];
      var k := i - 1;
      StepTable(run.tables[k], run.requests[k], run.secret, run.tokens[k], run.tables[i], run.replies[k]);
    }
  }

  /** A row is lost in a step iff a new device is given its id. */
  lemma StepKeepsRowIff(run: Run, k: nat, id: string, serial: string, credentials: Credentials)
    requires run.Proper() && k < run.Length()
    requires Owns(run.tables[k], id, serial, credentials)
    ensures run.IsNew(k) ==> run.replies[k].Provisioned?
    ensures Owns(run.tables[k + 1], id, serial, credentials) <==> !(run.IsNew(k) && run.replies[k].id == id)
    ensures run.IsNew(k) && run.replies[k].id == id ==> !Knows(run.tables[k + 1], serial)
  {
    hide Provisions, NextId;
    AllUnique(run, k);
    assert run.requests[k] == run.requests[k];
    StepTable(run.tables[k], run.requests[k], run.secret, run.tokens[k], run.tables[k + 1], run.replies[k]);
    var t, t' := run.tables[k], run.tables[k + 1];
    if run.IsNew(k) && run.replies[k].id == id {
      forall x | x in t' ensures t'[x].serial != serial {
        if x != id {
          assert x in t && t'[x] == t[x];
        }
      }
    }
  }

  /** Owning one's row from request i to request j. */
  ghost predicate KeptFrom(run: Run, i: nat, j: nat, id: string, serial: string, credentials: Credentials)
    requires i <= j < |run.tables|
  {
    forall k :: i <= k <= j ==> Owns(run.tables[k], id, serial, credentials)
  }

  /** From any table: a device keeps its row from request i to request j iff no new device in
      between is given its id. */
  lemma {:induction false} RowKeptIff(run: Run, i: nat, j: nat, id: string, serial: string, credentials: Credentials)
    requires run.Proper() && i <= j <= run.Length()
    requires Owns(run.tables[i], id, serial, credentials)
    ensures KeptFrom(run, i, j, id, serial, credentials) <==>
      forall k :: i <= k < j && run.IsNew(k) ==> run.replies[k].Provisioned? && run.replies[k].id != id
    decreases j - i
  {
    hide Owns;
    hide run.IsNew;
    if i < j {
      RowKeptIff(run, i, j - 1, id, serial, credentials);
      if KeptFrom(run, i, j - 1, id, serial, credentials) {
        StepKeepsRowIff(run, j - 1, id, serial, credentials);
      }
    }
  }

  /** Provisioning a serial again, with any requests in between, gives the same id, name and
      credentials, as long as no new device was given its id. */
  lemma ReprovisioningIsIdempotent(run: Run, i: nat, j: nat)
    requires run.Proper() && i < j < run.Length()
    requires run.IsNew(i) && run.Authorised(j) && run.requests[j].serial == run.requests[i].serial
    requires run.replies[i].Provisioned?
    requires forall k :: i < k < j && run.IsNew(k) ==>
      run.replies[k].Provisioned? && run.replies[k].id != run.replies[i].id
    ensures run.replies[j] == run.replies[i]
    ensures run.replies[i].credentials == run.tokens[i]
  {
    NewDeviceOwns(run, i);
    var id, serial := run.replies[i].id, run.requests[i].serial;
    RowKeptIff(run, i + 1, j, id, serial, run.tokens[i]);
    assert Owns(run.tables[j], id, serial, run.tokens[i]);
    OwnerIsKnown(run, j, id, serial, run.tokens[i]);
  }

  lemma OwnerIsKnown(run: Run, j: nat, id: string, serial: string, credentials: Credentials)
    requires run.Proper() && j < run.Length() && Owns(run.tables[j], id, serial, credentials) && id != ""
    requires run.Authorised(j) && run.requests[j].serial == serial
    ensures run.replies[j] == Provisioned(id, id, credentials)
  {
    hide Provisions, NextId;
    AllUnique(run, j);
    assert run.requests[j] == run.requests[j];
    StepTable(run.tables[j], run.requests[j], run.secret, run.tokens[j], run.tables[j + 1], run.replies[j]);
  }

  lemma NewDeviceOwns(run: Run, i: nat)
    requires run.Proper() && i < run.Length() && run.IsNew(i)
    ensures run.replies[i].Provisioned? && NextId(run.tables[i], run.replies[i].id) && run.replies[i].id != ""
    ensures run.replies[i] == Provisioned(run.replies[i].id, run.replies[i].id, run.tokens[i])
    ensures Owns(run.tables[i + 1], run.replies[i].id, run.requests[i].serial, run.tokens[i])
    ensures run.tables[i + 1].Keys == run.tables[i].Keys + {run.replies[i].id}
  {
    hide Provisions;
    AllUnique(run, i);
    assert run.requests[i] == run.requests[i];
    StepTable(run.tables[i], run.requests[i], run.secret, run.tokens[i], run.tables[i + 1], run.replies[i]);
    NextIdIsNotEmpty(run.tables[i]);
  }

  lemma NextIdIsNotEmpty(t: Table)
    ensures !NextId(t, "")
  {
    forall n: nat ensures Id(n) != "" {}
  }

  // ---- Addresses --------------------------------------------------------------------

  /** The request gives an address. */
  predicate Gives(req: Request) {
    req.piIp.Some? && req.piIp.value != ""
  }

  /** One authorised request: a known device's row takes the address that is given, if one is; a new
      device's row takes what is given, the empty string too, and only without any keeps the address
      that a row with its id had. */
  lemma AddressAfter(t: Table, req: Request, credentials: Credentials, t': Table, reply: Reply)
    requires SerialsUnique(t) && Provisions(t, req, req.secret, credentials, t', reply)
    ensures reply.Provisioned? && reply.id in t' && t'[reply.id].serial == req.serial
    ensures Knows(t, req.serial) ==>
      reply.id in t && t'[reply.id].piIp == if Gives(req) then req.piIp else t[reply.id].piIp
    ensures !Knows(t, req.serial) ==>
      t'[reply.id].piIp == if req.piIp.Some? then req.piIp else if reply.id in t then t[reply.id].piIp else None
    ensures forall id :: id in t && id != reply.id ==> id in t' && t'[id] == t[id]
  {
    hide NextId;
  }

  lemma StepAddress(run: Run, k: nat, id: string, serial: string, credentials: Credentials)
    requires run.Proper() && k < run.Length()
    requires Owns(run.tables[k], id, serial, credentials) && Owns(run.tables[k + 1], id, serial, credentials)
    ensures run.tables[k + 1][id].piIp ==
      if run.Authorised(k) && run.requests[k].serial == serial && Gives(run.requests[k]) then run.requests[k].piIp
      else run.tables[k][id].piIp
  {
    hide Provisions, NextId;
    AllUnique(run, k);
    assert run.requests[k] == run.requests[k];
    StepTable(run.tables[k], run.requests[k], run.secret, run.tokens[k], run.tables[k + 1], run.replies[k]);
    StepKeepsRowIff(run, k, id, serial, credentials);
    if run.Authorised(k) {
      AddressAfter(run.tables[k], run.requests[k], run.tokens[k], run.tables[k + 1], run.replies[k]);
    }
  }

  /** As long as a device keeps its row, the row shows the last address that its serial gave, and
      without any the one it had. */
  lemma {:induction false} LastAddressShows(run: Run, i: nat, j: nat, id: string, serial: string,
    credentials: Credentials, last: Option<nat>)
    requires run.Proper() && i <= j <= run.Length() && KeptFrom(run, i, j, id, serial, credentials)
    requires last.Some? ==>
      i <= last.value < j && run.Authorised(last.value) && run.requests[last.value].serial == serial
      && Gives(run.requests[last.value])
    requires forall k :: (if last.Some? then last.value + 1 else i) <= k < j ==>
      !(run.Authorised(k) && run.requests[k].serial == serial && Gives(run.requests[k]))
    ensures Owns(run.tables[j], id, serial, credentials) && Owns(run.tables[i], id, serial, credentials)
    ensures run.tables[j][id].piIp ==
      if last.Some? then run.requests[last.value].piIp else run.tables[i][id].piIp
    decreases j - i
  {
    assert Owns(run.tables[j], id, serial, credentials) && Owns(run.tables[i], id, serial, credentials);
    hide run.Proper;
    if i < j {
      assert Owns(run.tables[j - 1], id, serial, credentials);
      StepAddress(run, j - 1, id, serial, credentials);
      if last != Some(j - 1) {
        LastAddressShows(run, i, j - 1, id, serial, credentials, last);
      }
    }
  }

  // ---- A fleet provisioned from nothing ---------------------------------------------

  /** The table holds ids 1 to n. */
  ghost predicate Holds(t: Table, n: nat) {
    forall id :: id in t <==> exists k :: 1 <= k <= n && id == Id(k)
  }

  lemma NextOfFew(t: Table, n: nat, id: string)
    requires n < 1000 && Holds(t, n) && NextId(t, id)
    ensures id == Id(n + 1)
  {
    if n == 0 {
      assert t == map[];
    } else {
      assert Id(n) in t;
      forall x | x in t ensures !Less(Id(n), x) {
        var k :| 1 <= k <= n && x == Id(k);
        IdOrder(n, k);
      }
      var last :| IsMax(t.Keys, last) && id == Id(NumberAfter(last));
      MaxIsUnique(t.Keys, last, Id(n));
      NumberAfterId(n);
    }
  }

  lemma LastOfThousand(t: Table)
    requires Holds(t, 1000)
    ensures IsMax(t.Keys, Id(999))
  {
    hide Id, Less;
    assert Id(999) in t;
    forall x | x in t ensures !Less(Id(999), x) {
      var k :| 1 <= k <= 1000 && x == Id(k);
      if k < 1000 {
        IdOrder(999, k);
      } else {
        ThousandSortsBelow();
        LessIsStrict(Id(1000), Id(999));
      }
    }
  }

  lemma NextOfThousand(t: Table, id: string)
    requires Holds(t, 1000) && NextId(t, id)
    ensures id == Id(1000)
  {
    LastOfThousand(t);
    hide Id, Less, Holds;
    var last :| IsMax(t.Keys, last) && id == Id(NumberAfter(last));
    MaxIsUnique(t.Keys, last, Id(999));
    NumberAfterId(999);
  }

  /** The number of the device that is new at request i. */
  function NumberOf(run: Run, i: nat): nat
    requires i < run.Length() < |run.tables|
  {
    Min(run.News(i) + 1, 1000)
  }

  /** From an empty fleet, whatever known and refused requests come in between: a new device gets
      the number of new devices so far, itself included, up to 1000; and the table holds just
      these ids. */
  lemma {:induction false} FleetGrows(run: Run, i: nat)
    requires run.Proper() && run.tables[0] == map[] && i <= run.Length()
    ensures Holds(run.tables[i], Min(run.News(i), 1000))
    ensures i < run.Length() && run.IsNew(i) ==>
      run.replies[i] == Provisioned(Id(NumberOf(run, i)), Id(NumberOf(run, i)), run.tokens[i])
  {
    hide Id, Provisions, NextId;
    hide run.IsNew;
    if i > 0 {
      FleetGrows(run, i - 1);
      var t, t' := run.tables[i - 1], run.tables[i];
      if run.IsNew(i - 1) {
        NewDeviceOwns(run, i - 1);
        assert forall id :: id in t' <==> id in t || id == Id(Min(run.News(i), 1000));
      } else {
        OldRequestKeepsKeys(run, i - 1);
      }
      assert Holds(t', Min(run.News(i), 1000));
    }
    if i < run.Length() && run.IsNew(i) {
      NewDeviceOwns(run, i);
      if run.News(i) < 1000 {
        NextOfFew(run.tables[i], run.News(i), run.replies[i].id);
      } else {
        NextOfThousand(run.tables[i], run.replies[i].id);
      }
    }
  }

  lemma OldRequestKeepsKeys(run: Run, i: nat)
    requires run.Proper() && i < run.Length() && !run.IsNew(i)
    ensures run.tables[i + 1].Keys == run.tables[i].Keys
  {
    hide Provisions, NextId;
    AllUnique(run, i);
    assert run.requests[i] == run.requests[i];
    StepTable(run.tables[i], run.requests[i], run.secret, run.tokens[i], run.tables[i + 1], run.replies[i]);
  }

  lemma {:induction false} NewsGrow(run: Run, i: nat, j: nat)
    requires i < j <= run.Length() < |run.tables|
    ensures run.News(i) + (if run.IsNew(i) then 1 else 0) <= run.News(j)
  {
    hide run.IsNew;
    if i < j - 1 {
      NewsGrow(run, i, j - 1);
    }
  }

  /** Two new devices share an id iff neither is among the first 999. */
  lemma IdsCollideFromThousandOn(run: Run, i: nat, j: nat)
    requires run.Proper() && run.tables[0] == map[]
    requires i < j < run.Length() && run.IsNew(i) && run.IsNew(j)
    ensures run.replies[i].Provisioned? && run.replies[j].Provisioned?
    ensures run.replies[i].id == run.replies[j].id <==> run.News(i) >= 999
  {
    hide run.IsNew, Id, Provisions, Holds;
    FleetGrows(run, i);
    FleetGrows(run, j);
    NewsGrow(run, i, j);
    if run.replies[i].id == run.replies[j].id {
      IdInjective(NumberOf(run, i), NumberOf(run, j));
    }
  }

  /** From an empty fleet: a new device keeps its id and credentials through all later requests iff
      its number is below 1000 or no other new device has come since. */
  lemma IdentityKeptIff(run: Run, i: nat, j: nat)
    requires run.Proper() && run.tables[0] == map[]
    requires i < j <= run.Length() && run.IsNew(i)
    ensures var id := Id(NumberOf(run, i));
      KeptFrom(run, i + 1, j, id, run.requests[i].serial, run.tokens[i]) <==>
        NumberOf(run, i) < 1000 || forall k :: i < k < j ==> !run.IsNew(k)
  {
    hide Id, Owns, KeptFrom, Provisions, Holds, Knows, NextId, run.News;
    FleetGrows(run, i);
    NewDeviceOwns(run, i);
    var id := Id(NumberOf(run, i));
    RowKeptIff(run, i + 1, j, id, run.requests[i].serial, run.tokens[i]);
    forall k | i < k < j && run.IsNew(k)
      ensures run.replies[k].Provisioned? && (run.replies[k].id == id <==> NumberOf(run, i) == 1000)
    {
      IdsCollideFromThousandOn(run, i, k);
    }
  }

  /** What the serial of such a device gets when it asks again at request j: the id and credentials
      it had, if it kept them. */
  lemma KeptIdentityIsReturned(run: Run, i: nat, j: nat)
    requires run.Proper() && run.tables[0] == map[]
    requires i < j < run.Length() && run.IsNew(i)
    requires run.Authorised(j) && run.requests[j].serial == run.requests[i].serial
    requires NumberOf(run, i) < 1000 || forall k :: i < k < j ==> !run.IsNew(k)
    ensures run.replies[j] == run.replies[i] && !run.IsNew(j)
  {
    IdentityKeptIff(run, i, j);
    FleetGrows(run, i);
    NewDeviceOwns(run, i);
    hide Id;
    assert Owns(run.tables[j], run.replies[i].id, run.requests[i].serial, run.tokens[i]);
    OwnerIsKnown(run, j, run.replies[i].id, run.requests[i].serial, run.tokens[i]);
  }

  /** From the 1000th new device on, the next new device takes over the row of the one before,
      whose serial is then unknown: if it asks next, it gets fresh credentials. */
  lemma ThousandFirstDisplaces(run: Run, i: nat, k: nat)
    requires run.Proper() && run.tables[0] == map[]
    requires i < k < run.Length() && run.IsNew(i) && run.IsNew(k) && run.News(i) >= 999
    requires forall m :: i < m < k ==> !run.IsNew(m)
    ensures run.replies[i].Provisioned? && run.replies[k].Provisioned? && run.replies[k].id == run.replies[i].id
    ensures !Knows(run.tables[k + 1], run.requests[i].serial)
    ensures k + 1 < run.Length() && run.Authorised(k + 1) && run.requests[k + 1].serial == run.requests[i].serial ==>
      run.replies[k + 1] == Provisioned(run.replies[i].id, run.replies[i].id, run.tokens[k + 1])
  {
    hide Id, Provisions, Holds, Knows, Owns, run.News;
    FleetGrows(run, i);
    IdsCollideFromThousandOn(run, i, k);
    IdentityKeptIff(run, i, k);
    var id := run.replies[i].id;
    assert Owns(run.tables[k], id, run.requests[i].serial, run.tokens[i]);
    StepKeepsRowIff(run, k, id, run.requests[i].serial, run.tokens[i]);
    if k + 1 < run.Length() && run.Authorised(k + 1) && run.requests[k + 1].serial == run.requests[i].serial {
      FleetGrows(run, k + 1);
      NewsGrow(run, i, k + 1);
    }
  }
}
