/** The transactions of the repository store, statement by statement. */
module RepositoryStore {
  import opened Text
  import opened RepositoryRows

  class RepositoryStore {
    var rows: Table

    constructor ()
      ensures rows == map[]
    {
      rows := map[];
    }

    /** `id` is the row id the database assigns and `nonce` the one the cipher draws. */
    method Create(id: Id, name: string, secret: string, enabled: bool, nonce: nat, fault: Fault)
      returns (result: Result<Row>)
      requires id !in rows
      modifies this
      ensures Outcome(rows, result) == Created(old(rows), id, name, secret, enabled, nonce, fault)
    {
      if fault.BeginFails? { return Err(fault.e); }
      if fault.EncryptFails? { return Err(Cryptographic(EncryptionFailed)); }
      var encrypted := Encrypt(name, secret, nonce);
      if fault.WriteFails? { return Err(fault.e); }
      if exists i :: i in rows && rows[i].name == name {
        assert Taken(rows, name, None);
        return Err(Conflict);
      }
      var row := Row(name, encrypted, enabled);
      result := AuthenticateRow(row);
      if result.Err? { return; }
      if fault.CommitFails? { return Err(fault.e); }
      rows := rows[id := row];
    }

    method Update(id: Id, m: Mutation, nonce: nat, fault: Fault) returns (result: Result<Row>)
      modifies this
      ensures Outcome(rows, result) == Updated(old(rows), id, m, nonce, fault)
    {
      if IsEmpty(m) { return Err(EmptyMutation); }
      if fault.BeginFails? { return Err(fault.e); }
      if id !in rows { return Err(NotFound); }
      var current := rows[id];
      var currentSecret := Decrypt(current.name, current.encrypted);
      if currentSecret.Err? { return Err(currentSecret.error); }
      var finalName := if m.fullName.Some? then m.fullName.value else current.name;
      var enabled := if m.enabled.Some? then m.enabled.value else current.enabled;
      var encrypted := current.encrypted;
      if finalName != current.name || m.webhookSecret.Some? {
        if fault.EncryptFails? { return Err(Cryptographic(EncryptionFailed)); }
        encrypted :=
            Encrypt(finalName, if m.webhookSecret.Some? then m.webhookSecret.value else currentSecret.value, nonce);
      }
      if fault.WriteFails? { return Err(fault.e); }
      if exists i :: i in rows && rows[i].name == finalName && i != id {
        assert Taken(rows, finalName, Some(id)) by {
          var i :| i in rows && rows[i].name == finalName && i != id;
          assert Some(id) != Some(i);
        }
        return Err(Conflict);
      }
      var row := Row(finalName, encrypted, enabled);
      result := AuthenticateRow(row);
      if result.Err? { return; }
      if fault.CommitFails? { return Err(fault.e); }
      rows := rows[id := row];
    }

    /** Refuses to delete what it cannot authenticate. */
    method Delete(id: Id, fault: Fault) returns (result: Result<Row>)
      modifies this
      ensures Outcome(rows, result) == Deleted(old(rows), id, fault)
    {
      if fault.BeginFails? { return Err(fault.e); }
      if id !in rows { return Err(NotFound); }
      result := AuthenticateRow(rows[id]);
      if result.Err? { return; }
      if fault.WriteFails? || fault.CommitFails? { return Err(fault.e); }
      rows := rows - {id};
    }

    method AuthenticationMaterial(name: string) returns (result: Result<Material>)
      requires NamesUnique(rows)
      ensures result == Authenticate(rows, name)
    {
      var found := set i | i in rows && rows[i].name == name && rows[i].enabled;
      assert found == EnabledIds(rows, name);
      if found == {} { return Err(AuthenticationFailed); }
      var id :| id in found;
      assert found == {id};
      match Decrypt(name, rows[id].encrypted)
      case Err(e) => return Err(e);
      case Ok(secret) => return Ok(Material(id, secret));
    }
  }

  method AuthenticateRow(row: Row) returns (result: Result<Row>)
    ensures result == if Authentic(row) then Ok(row) else Err(Decrypt(row.name, row.encrypted).error)
  {
    match Decrypt(row.name, row.encrypted)
    case Err(e) => return Err(e);
    case Ok(_) => return Ok(row);
  }
}
