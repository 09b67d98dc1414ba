/** Encrypted repository rows: what the transactions do to them, and the plain table they stand for. */
module RepositoryRows {
  import opened Text

  type Id = nat

  /** An ideal sealed box: it opens only under the name it was sealed for.  Whatever an outsider writes
      in its place is `Altered`. */
  datatype Body = Sealed(name: string, secret: string, nonce: nat) | Altered

  datatype Encrypted = Encrypted(version: nat, body: Body)

  const VERSION: nat := 1

  datatype SecurityError = UnsupportedVersion | DecryptionFailed | EncryptionFailed

  datatype StoreError =
    | AuthenticationFailed | NotFound | Conflict | EmptyMutation | Cryptographic(cause: SecurityError) | Unavailable
        | Internal

  datatype Result<T> = Ok(value: T) | Err(error: StoreError)

  function Encrypt(name: string, secret: string, nonce: nat): Encrypted {
    Encrypted(VERSION, Sealed(name, secret, nonce))
  }

  function Decrypt(name: string, e: Encrypted): Result<string> {
    if e.version != VERSION then Err(Cryptographic(UnsupportedVersion))
    else if e.body.Altered? || e.body.name != name then Err(Cryptographic(DecryptionFailed))
    else Ok(e.body.secret)
  }

  datatype Row = Row(name: string, encrypted: Encrypted, enabled: bool)

  type Table = map<Id, Row>

  predicate Authentic(r: Row) { Decrypt(r.name, r.encrypted).Ok? }

  /** The unique index on names. */
  predicate NamesUnique(rows: Table) {
    forall i, j :: i in rows && j in rows && rows[i].name == rows[j].name ==> i == j
  }

  predicate Bound(rows: Table) { NamesUnique(rows) && forall i :: i in rows ==> Authentic(rows[i]) }

  predicate Taken(rows: Table, name: string, owner: Option<Id>) {
    exists i :: i in rows && rows[i].name == name && owner != Some(i)
  }

  datatype Mutation = Mutation(fullName: Option<string>, webhookSecret: Option<string>, enabled: Option<bool>)

  predicate IsEmpty(m: Mutation) { m.fullName.None? && m.webhookSecret.None? && m.enabled.None? }

  function Or<T>(o: Option<T>, otherwise: T): T { if o.Some? then o.value else otherwise }

  /** Where a transaction can fail; it is then rolled back. */
  datatype Fault = NoFault | BeginFails(e: StoreError) | EncryptFails | WriteFails(e: StoreError)
      | CommitFails(e: StoreError)

  datatype Outcome = Outcome(rows: Table, result: Result<Row>)

  function Created(rows: Table, id: Id, name: string, secret: string, enabled: bool, nonce: nat, fault: Fault)
      : Outcome
  {
    var r := Row(name, Encrypt(name, secret, nonce), enabled);
    if fault.BeginFails? then Outcome(rows, Err(fault.e))
    else if fault.EncryptFails? then Outcome(rows, Err(Cryptographic(EncryptionFailed)))
    else if fault.WriteFails? then Outcome(rows, Err(fault.e))
    else if Taken(rows, name, None) then Outcome(rows, Err(Conflict))
    else if fault.CommitFails? then Outcome(rows, Err(fault.e))
    else Outcome(rows[id := r], Ok(r))
  }

  /** Whether the secret has to be sealed anew. */
  predicate Reseals(r: Row, m: Mutation) { Or(m.fullName, r.name) != r.name || m.webhookSecret.Some? }

  function Mutated(r: Row, m: Mutation, nonce: nat): Row
    requires Authentic(r)
  {
    var name := Or(m.fullName, r.name);
    var secret := Or(m.webhookSecret, Decrypt(r.name, r.encrypted).value);
    Row(name, if Reseals(r, m) then Encrypt(name, secret, nonce) else r.encrypted, Or(m.enabled, r.enabled))
  }

  function Updated(rows: Table, id: Id, m: Mutation, nonce: nat, fault: Fault): Outcome {
    if IsEmpty(m) then Outcome(rows, Err(EmptyMutation))
    else if fault.BeginFails? then Outcome(rows, Err(fault.e))
    else if id !in rows then Outcome(rows, Err(NotFound))
    else if !Authentic(rows[id]) then Outcome(rows, Err(Decrypt(rows[id].name, rows[id].encrypted).error))
    else
      var r := Mutated(rows[id], m, nonce);
      if fault.EncryptFails? && Reseals(rows[id], m) then Outcome(rows, Err(Cryptographic(EncryptionFailed)))
      else if fault.WriteFails? then Outcome(rows, Err(fault.e))
      else if Taken(rows, r.name, Some(id)) then Outcome(rows, Err(Conflict))
      else if fault.CommitFails? then Outcome(rows, Err(fault.e))
      else Outcome(rows[id := r], Ok(r))
  }

  function Deleted(rows: Table, id: Id, fault: Fault): Outcome {
    if fault.BeginFails? then Outcome(rows, Err(fault.e))
    else if id !in rows then Outcome(rows, Err(NotFound))
    else if !Authentic(rows[id]) then Outcome(rows, Err(Decrypt(rows[id].name, rows[id].encrypted).error))
    else if fault.WriteFails? || fault.CommitFails? then Outcome(rows, Err(fault.e))
    else Outcome(rows - {id}, Ok(rows[id]))
  }

  // ---- the plain table ----

  datatype Plain = Plain(name: string, secret: string, enabled: bool)

  function OpenedRow(r: Row): Plain
    requires Authentic(r)
  {
    Plain(r.name, Decrypt(r.name, r.encrypted).value, r.enabled)
  }

  function OpenedRows(rows: Table): map<Id, Plain>
    requires forall i :: i in rows ==> Authentic(rows[i])
  {
    map i | i in rows :: OpenedRow(rows[i])
  }

  datatype Call =
    | Create(id: Id, name: string, secret: string, enabled: bool)
    | Update(id: Id, mutation: Mutation)
    | Delete(id: Id)

  function Perform(rows: Table, c: Call, nonce: nat, fault: Fault): Outcome {
    match c
    case Create(id, name, secret, enabled) => Created(rows, id, name, secret, enabled, nonce, fault)
    case Update(id, m) => Updated(rows, id, m, nonce, fault)
    case Delete(id) => Deleted(rows, id, fault)
  }

  /** The same calls on rows without encryption; `None` is a refusal. */
  function Apply(t: map<Id, Plain>, c: Call): Option<map<Id, Plain>> {
    match c
    case Create(id, name, secret, enabled) =>
      if exists i :: i in t && t[i].name == name then None else Some(t[id := Plain(name, secret, enabled)])
    case Update(id, m) =>
      if id !in t || IsEmpty(m) || (exists i :: i in t && i != id && t[i].name == Or(m.fullName, t[id].name)) then None
      else Some(t[id :=
          Plain(Or(m.fullName, t[id].name), Or(m.webhookSecret, t[id].secret), Or(m.enabled, t[id].enabled))])
    case Delete(id) => if id !in t then None else Some(t - {id})
  }

  lemma SealedOpens(name: string, secret: string, nonce: nat)
    ensures forall other :: Decrypt(other, Encrypt(name, secret, nonce)).Ok? <==> other == name
    ensures Decrypt(name, Encrypt(name, secret, nonce)) == Ok(secret)
  {
  }

  /** Nothing but what was sealed for a name, under this version, opens under it. */
  lemma OpensExactly(name: string, e: Encrypted)
    ensures Decrypt(name, e).Ok? <==> exists secret, nonce :: e == Encrypt(name, secret, nonce)
  {
    if Decrypt(name, e).Ok? { assert e == Encrypt(name, e.body.secret, e.body.nonce); }
  }

  predicate Fresh(rows: Table, c: Call) { c.Create? ==> c.id !in rows }

  lemma MutatedOpens(r: Row, m: Mutation, nonce: nat)
    requires Authentic(r)
    ensures var r' := Mutated(r, m, nonce);
      && Authentic(r')
      && OpenedRow(r')
         == Plain(Or(m.fullName, r.name), Or(m.webhookSecret, OpenedRow(r).secret), Or(m.enabled, r.enabled))
      && r'.encrypted == (if r'.name == r.name && m.webhookSecret.None? then r.encrypted
                          else Encrypt(r'.name, OpenedRow(r').secret, nonce))
  {
  }

  lemma TakenOpened(rows: Table, name: string, owner: Option<Id>)
    requires Bound(rows)
    ensures Taken(rows, name, owner)
        <==> exists i :: i in OpenedRows(rows) && OpenedRows(rows)[i].name == name && owner != Some(i)
  {
    if Taken(rows, name, owner) {
      var i :| i in rows && rows[i].name == name && owner != Some(i);
      assert OpenedRows(rows)[i].name == name;
    }
  }

  /** What one call may do to the encrypted table, told by the plain one. */
  predicate Refines(rows: Table, c: Call, o: Outcome, fault: Fault)
    requires Bound(rows)
  {
    var plain := Apply(OpenedRows(rows), c);
    && Bound(o.rows)
    && (o.result.Ok? ==> plain == Some(OpenedRows(o.rows)))
    && (o.result.Err? ==> o.rows == rows)
    && (fault.NoFault? ==> (o.result.Ok? <==> plain.Some?))
  }

  lemma CreateRefines(rows: Table, c: Call, nonce: nat, fault: Fault)
    requires Bound(rows) && c.Create? && c.id !in rows
    ensures Refines(rows, c, Perform(rows, c, nonce, fault), fault)
  {
    TakenOpened(rows, c.name, None);
    var r := Row(c.name, Encrypt(c.name, c.secret, nonce), c.enabled);
    assert OpenedRow(r) == Plain(c.name, c.secret, c.enabled);
    if !Taken(rows, c.name, None) { PutKeepsBound(rows, c.id, r); }
  }

  lemma UpdateRefines(rows: Table, c: Call, nonce: nat, fault: Fault)
    requires Bound(rows) && c.Update?
    ensures Refines(rows, c, Perform(rows, c, nonce, fault), fault)
  {
    if c.id in rows {
      var r := Mutated(rows[c.id], c.mutation, nonce);
      MutatedOpens(rows[c.id], c.mutation, nonce);
      TakenOpened(rows, r.name, Some(c.id));
      if !Taken(rows, r.name, Some(c.id)) { PutKeepsBound(rows, c.id, r); }
    }
  }

  lemma PutKeepsBound(rows: Table, id: Id, r: Row)
    requires Bound(rows) && Authentic(r) && !Taken(rows, r.name, Some(id))
    ensures Bound(rows[id := r]) && OpenedRows(rows[id := r]) == OpenedRows(rows)[id := OpenedRow(r)]
  {
  }

  lemma DeleteRefines(rows: Table, c: Call, nonce: nat, fault: Fault)
    requires Bound(rows) && c.Delete?
    ensures Refines(rows, c, Perform(rows, c, nonce, fault), fault)
  {
    var o := Perform(rows, c, nonce, fault);
    if o.result.Ok? { assert OpenedRows(o.rows) == OpenedRows(rows) - {c.id}; }
  }

  /** Whether or not something fails, the encrypted table does what the plain one would: every row
      stays bound to its own name, a refusal or failure changes nothing, and with no failure the two
      refuse alike. */
  lemma CallRefinesPlain(rows: Table, c: Call, nonce: nat, fault: Fault)
    requires Bound(rows) && Fresh(rows, c)
    ensures Refines(rows, c, Perform(rows, c, nonce, fault), fault)
  {
    match c
    case Create(_, _, _, _) => CreateRefines(rows, c, nonce, fault);
    case Update(_, _) => UpdateRefines(rows, c, nonce, fault);
    case Delete(_) => DeleteRefines(rows, c, nonce, fault);
  }

  // ---- answers ----

  /** The name a call asks for. */
  function Wanted(rows: Table, c: Call): Option<string> {
    match c
    case Create(_, name, _, _) => Some(name)
    case Update(id, m) => if m.fullName.Some? then m.fullName else if id in rows then Some(rows[id].name) else None
    case Delete(_) => None
  }

  predicate Blank(c: Call) {
    c.Update? && c.mutation.fullName.None? && c.mutation.webhookSecret.None? && c.mutation.enabled.None?
  }

  /** Another row already has the name that is asked for. */
  ghost predicate NameClash(rows: Table, c: Call) {
    exists i :: i in rows && Some(rows[i].name) == Wanted(rows, c) && (c.Update? ==> i != c.id)
  }

  /** What a call is answered when nothing fails: the row as it is stored, or as it was when deleted, or
      the one reason that stood in the way. */
  lemma AnswersExactly(rows: Table, c: Call, nonce: nat)
    requires Bound(rows) && Fresh(rows, c)
    ensures var o := Perform(rows, c, nonce, NoFault); var absent := !c.Create? && c.id !in rows;
      && (o.result == Err(EmptyMutation) <==> Blank(c))
      && (o.result == Err(NotFound) <==> !Blank(c) && absent)
      && (o.result == Err(Conflict) <==> !Blank(c) && !absent && NameClash(rows, c))
      && (o.result.Ok? <==> !Blank(c) && !absent && !NameClash(rows, c))
      && (o.result.Ok? ==> if c.Delete? then c.id in rows && o.result.value == rows[c.id] && o.rows == rows - {c.id}
                           else c.id in o.rows && o.rows == rows[c.id := o.result.value])
  {
    if c.Update? && c.id in rows { assert Authentic(rows[c.id]); }
  }

  /** A failure is answered as such, unless the call was refused before it struck: a cipher failure only
      where a secret has to be sealed, and no failure lets a call through. */
  lemma FailuresAnswered(rows: Table, c: Call, nonce: nat, fault: Fault)
    requires Bound(rows) && Fresh(rows, c) && !Blank(c)
    ensures var o, plain := Perform(rows, c, nonce, fault), Perform(rows, c, nonce, NoFault);
      && (fault.BeginFails? ==> o.result == Err(fault.e))
      && (fault.WriteFails? || fault.CommitFails? ==>
           o.result == Err(fault.e) || (plain.result.Err? && o.result == plain.result))
      && (fault.EncryptFails? && c.Create? ==> o.result == Err(Cryptographic(EncryptionFailed)))
      && (fault.EncryptFails? && c.Update? && c.id in rows ==>
           if c.mutation.webhookSecret.Some? || Wanted(rows, c) != Some(rows[c.id].name)
           then o.result == Err(Cryptographic(EncryptionFailed)) else o == plain)
      && (o.result.Err? ==> o.rows == rows)
  {
    if c.Update? && c.id in rows { assert Authentic(rows[c.id]); }
    if c.Delete? && c.id in rows { assert Authentic(rows[c.id]); }
  }

  /** A row whose box does not open under its own name is neither changed nor removed, and the answer says
      whether its version or its content was to blame. */
  lemma TamperedIsRefused(rows: Table, c: Call, nonce: nat)
    requires !c.Create? && !Blank(c) && c.id in rows
    requires forall secret, n :: rows[c.id].encrypted != Encrypt(rows[c.id].name, secret, n)
    ensures Perform(rows, c, nonce, NoFault)
         == Outcome(rows, Err(Cryptographic(if rows[c.id].encrypted.version == VERSION then DecryptionFailed
                                            else UnsupportedVersion)))
  {
    OpensExactly(rows[c.id].name, rows[c.id].encrypted);
  }

  // ---- authentication ----

  datatype Material = Material(id: Id, secret: string)

  function EnabledIds(rows: Table, name: string): set<Id> {
    set i | i in rows && rows[i].name == name && rows[i].enabled
  }

  /** The lookup by name, then decryption under that name. */
  ghost function Authenticate(rows: Table, name: string): Result<Material> {
    if EnabledIds(rows, name) == {} then Err(AuthenticationFailed)
    else
      var i :| i in EnabledIds(rows, name);
      match Decrypt(name, rows[i].encrypted)
      case Err(e) => Err(e)
      case Ok(secret) => Ok(Material(i, secret))
  }

  /** Whoever authenticates gets the secret that was sealed for the very name asked for, whatever an
      outsider did to the table. */
  lemma OnlyOwnSecret(rows: Table, name: string)
    ensures var a := Authenticate(rows, name);
      a.Ok? ==> a.value.id in rows && rows[a.value.id].name == name && rows[a.value.id].enabled
                && exists nonce :: rows[a.value.id].encrypted == Encrypt(name, a.value.secret, nonce)
  {
    var a := Authenticate(rows, name);
    if a.Ok? {
      var e := rows[a.value.id].encrypted;
      assert e == Encrypt(name, a.value.secret, e.body.nonce);
    }
  }

  /** A box moved from one repository's row to another's is refused, and so is its row by every call
      that would have rewritten or removed it. */
  lemma MovedBoxIsRefused(rows: Table, i: Id, j: Id, m: Mutation, nonce: nat)
    requires Bound(rows) && i in rows && j in rows && i != j && !IsEmpty(m)
    ensures var moved := rows[j := rows[j].(encrypted := rows[i].encrypted)];
      && (rows[j].enabled ==> Authenticate(moved, rows[j].name) == Err(Cryptographic(DecryptionFailed)))
      && Updated(moved, j, m, nonce, NoFault) == Outcome(moved, Err(Cryptographic(DecryptionFailed)))
      && Deleted(moved, j, NoFault) == Outcome(moved, Err(Cryptographic(DecryptionFailed)))
  {
    var moved := rows[j := rows[j].(encrypted := rows[i].encrypted)];
    assert Authentic(rows[i]) && rows[i].name != rows[j].name;
    if rows[j].enabled {
      assert j in EnabledIds(moved, rows[j].name);
      assert EnabledIds(moved, rows[j].name) == {j};
    }
  }

  // ---- histories ----

  /** One call, the nonce drawn for it and what failed. */
  datatype Entry = Entry(call: Call, nonce: nat, fault: Fault)

  predicate Runs(rows: Table, log: seq<Entry>)
    decreases |log|
  {
    log == []
        || (Fresh(rows, log[0].call) && Runs(Perform(rows, log[0].call, log[0].nonce, log[0].fault).rows, log[1..]))
  }

  function After(rows: Table, log: seq<Entry>): Table
    requires Runs(rows, log)
    decreases |log|
  {
    if log == [] then rows else After(Perform(rows, log[0].call, log[0].nonce, log[0].fault).rows, log[1..])
  }

  /** The calls that were answered with success, in order. */
  function Succeeded(rows: Table, log: seq<Entry>): seq<Call>
    requires Runs(rows, log)
    decreases |log|
  {
    if log == [] then []
    else
      var o := Perform(rows, log[0].call, log[0].nonce, log[0].fault);
      (if o.result.Ok? then [log[0].call] else []) + Succeeded(o.rows, log[1..])
  }

  function IdOf(c: Call): Id { c.id }

  /** The last value a history gave a field of row `id`; `None` if the row is not there. */
  function LastSecret(calls: seq<Call>, id: Id): Option<string>
    decreases |calls|
  {
    if calls == [] then None
    else
      var earlier, c := calls[..|calls| - 1], calls[|calls| - 1];
      if IdOf(c) != id then LastSecret(earlier, id)
      else match c
        case Create(_, _, secret, _) => Some(secret)
        case Update(_, m) => if m.webhookSecret.Some? then m.webhookSecret else LastSecret(earlier, id)
        case Delete(_) => None
  }

  function LastName(calls: seq<Call>, id: Id): Option<string>
    decreases |calls|
  {
    if calls == [] then None
    else
      var earlier, c := calls[..|calls| - 1], calls[|calls| - 1];
      if IdOf(c) != id then LastName(earlier, id)
      else match c
        case Create(_, name, _, _) => Some(name)
        case Update(_, m) => if m.fullName.Some? then m.fullName else LastName(earlier, id)
        case Delete(_) => None
  }

  function LastEnabled(calls: seq<Call>, id: Id): Option<bool>
    decreases |calls|
  {
    if calls == [] then None
    else
      var earlier, c := calls[..|calls| - 1], calls[|calls| - 1];
      if IdOf(c) != id then LastEnabled(earlier, id)
      else match c
        case Create(_, _, _, enabled) => Some(enabled)
        case Update(_, m) => if m.enabled.Some? then m.enabled else LastEnabled(earlier, id)
        case Delete(_) => None
  }

  /** What the table holds of one row is the last values set for it. */
  predicate RowRemembers(rows: Table, calls: seq<Call>, id: Id) {
    if id in rows then
      Authentic(rows[id]) && LastSecret(calls, id) == Some(OpenedRow(rows[id]).secret)
      && LastName(calls, id) == Some(rows[id].name) && LastEnabled(calls, id) == Some(rows[id].enabled)
    else LastSecret(calls, id) == None && LastName(calls, id) == None && LastEnabled(calls, id) == None
  }

  ghost predicate Remembers(rows: Table, calls: seq<Call>) { Bound(rows) && forall id :: RowRemembers(rows, calls, id) }

  lemma LastCall(calls: seq<Call>, c: Call)
    ensures (calls + [c])[..|calls + [c]| - 1] == calls && (calls + [c])[|calls + [c]| - 1] == c
  {
  }

  lemma CallRemembered(rows: Table, calls: seq<Call>, c: Call, nonce: nat, fault: Fault)
    requires Remembers(rows, calls) && Fresh(rows, c)
    ensures var o := Perform(rows, c, nonce, fault);
      Remembers(o.rows, if o.result.Ok? then calls + [c] else calls)
  {
    CallRefinesPlain(rows, c, nonce, fault);
    var o := Perform(rows, c, nonce, fault);
    if o.result.Ok? {
      forall id
        ensures RowRemembers(o.rows, calls + [c], id)
      {
        assert RowRemembers(rows, calls, id);
        LastCall(calls, c);
        if IdOf(c) != id { OtherRow(rows, c, nonce, fault, id); } else { OwnRow(rows, calls, c, nonce, fault); }
      }
    }
  }

  lemma OwnRow(rows: Table, calls: seq<Call>, c: Call, nonce: nat, fault: Fault)
    requires RowRemembers(rows, calls, IdOf(c)) && Perform(rows, c, nonce, fault).result.Ok?
    ensures RowRemembers(Perform(rows, c, nonce, fault).rows, calls + [c], IdOf(c))
  {
    LastCall(calls, c);
    if c.Update? { MutatedOpens(rows[c.id], c.mutation, nonce); }
  }

  lemma OtherRow(rows: Table, c: Call, nonce: nat, fault: Fault, id: Id)
    requires IdOf(c) != id
    ensures var o := Perform(rows, c, nonce, fault);
      (id in o.rows <==> id in rows) && (id in rows ==> o.rows[id] == rows[id])
  {
  }

  lemma Regroup(calls: seq<Call>, c: Call, ok: bool, rest: seq<Call>)
    ensures (if ok then calls + [c] else calls) + rest == calls + ((if ok then [c] else []) + rest)
  {
  }

  lemma {:induction false} HistoryRemembered(rows: Table, calls: seq<Call>, log: seq<Entry>)
    requires Remembers(rows, calls) && Runs(rows, log)
    ensures Remembers(After(rows, log), calls + Succeeded(rows, log))
    decreases |log|
  {
    if log == [] {
      assert calls + [] == calls;
    } else {
      var e := log[0];
      var o := Perform(rows, e.call, e.nonce, e.fault);
      CallRemembered(rows, calls, e.call, e.nonce, e.fault);
      var calls' := if o.result.Ok? then calls + [e.call] else calls;
      HistoryRemembered(o.rows, calls', log[1..]);
      Regroup(calls, e.call, o.result.Ok?, Succeeded(o.rows, log[1..]));
    }
  }

  /** After any history, failures included: authentication under a name succeeds exactly when some
      row's last name is that name and it was last enabled, and then it yields the last secret set
      for that row, however often the row was renamed since. */
  lemma AuthenticationYieldsLastSecret(log: seq<Entry>, name: string, id: Id)
    requires Runs(map[], log)
    ensures var calls, rows := Succeeded(map[], log), After(map[], log);
      (exists secret :: Authenticate(rows, name) == Ok(Material(id, secret)) && LastSecret(calls, id) == Some(secret))
      <==> LastName(calls, id) == Some(name) && LastEnabled(calls, id) == Some(true)
    ensures Authenticate(After(map[], log), name).Err? ==>
        Authenticate(After(map[], log), name) == Err(AuthenticationFailed)
  {
    HistoryRemembered(map[], [], log);
    var calls, rows := Succeeded(map[], log), After(map[], log);
    assert [] + calls == calls && RowRemembers(rows, calls, id);
    var ids := EnabledIds(rows, name);
    if id in ids {
      assert Authentic(rows[id]) && ids == {id};
      assert Authenticate(rows, name) == Ok(Material(id, OpenedRow(rows[id]).secret));
    }
    if ids != {} {
      var i :| i in ids;
      assert Authentic(rows[i]) && ids == {i};
    }
  }
}
