/**
  Properties of registration, stated over `RegisterSpec`, the function that
  `Server.Register` is proved to implement.
*/
module RegisterProperties {
  import opened Wrappers
  import opened Validation
  import opened ClaimStore
  import opened Server

  /** All three fields of a submission (with the PDB id already upper-cased) pass their checks. */
  predicate FieldsValid(name: string, pdb: string, mcgillId: string)
  {
    IsValidName(name) && IsValidPdb(pdb) && IsValidMcgillId(mcgillId)
  }

  /**
    A registration succeeds exactly when every field is valid and the new row
    clashes with no stored PDB id and no stored McGill id.
  */
  lemma SuccessIff(rows: seq<Claim>, userSecret: string, name: string, typedPdb: string, mcgillId: string)
    ensures var pdb := ToUpper(typedPdb);
            RegisterSpec(rows, userSecret, name, typedPdb, mcgillId).response.Success? <==>
              FieldsValid(name, pdb, mcgillId) && InsertAccepted(rows, Claim(pdb, mcgillId, name))
  {
  }

  /**
    A successful registration adds exactly one row, holding the name, the
    upper-cased PDB id and the McGill id; a rejected one leaves the table as it was.
  */
  lemma RowsAfterRegister(rows: seq<Claim>, userSecret: string, name: string, typedPdb: string, mcgillId: string)
    ensures var step := RegisterSpec(rows, userSecret, name, typedPdb, mcgillId);
            step.rows == if step.response.Success? then rows + [Claim(ToUpper(typedPdb), mcgillId, name)] else rows
  {
  }

  /** Registration keeps the table's two uniqueness constraints. */
  lemma RegisterKeepsUniqueKeys(rows: seq<Claim>, userSecret: string, name: string, typedPdb: string, mcgillId: string)
    requires UniqueKeys(rows)
    ensures UniqueKeys(RegisterSpec(rows, userSecret, name, typedPdb, mcgillId).rows)
  {
  }

  /**
    A submission with an invalid field never reaches the table: the answer is
    the form with exactly the validation messages of the failing fields.
  */
  lemma InvalidSubmissionRejected(rows: seq<Claim>, userSecret: string, name: string, typedPdb: string, mcgillId: string)
    requires !FieldsValid(name, ToUpper(typedPdb), mcgillId)
    ensures var pdb := ToUpper(typedPdb);
            var step := RegisterSpec(rows, userSecret, name, typedPdb, mcgillId);
            && step.rows == rows
            && step.response == Conflict(ConflictPage(ValidationFeedback(name, pdb, mcgillId), userSecret, name, pdb, mcgillId))
  {
  }

  /**
    A rejected submission is rejected again, with the same page, when it is sent
    a second time: it left the table unchanged.
  */
  lemma RejectionRepeats(rows: seq<Claim>, userSecret: string, name: string, typedPdb: string, mcgillId: string)
    requires RegisterSpec(rows, userSecret, name, typedPdb, mcgillId).response.Conflict?
    ensures var step := RegisterSpec(rows, userSecret, name, typedPdb, mcgillId);
            RegisterSpec(step.rows, userSecret, name, typedPdb, mcgillId) == step
  {
  }

  /**
    A valid submission whose McGill id already has a row is refused, the table
    is unchanged, and the message names the PDB id stored in that row, not the
    one just submitted.
  */
  lemma DuplicateMcgillIdNamesStoredPdb(rows: seq<Claim>, userSecret: string, name: string, typedPdb: string, mcgillId: string, i: nat)
    requires UniqueKeys(rows)
    requires FieldsValid(name, ToUpper(typedPdb), mcgillId)
    requires i < |rows| && rows[i].mcgillId == mcgillId
    ensures var step := RegisterSpec(rows, userSecret, name, typedPdb, mcgillId);
            && step.rows == rows
            && step.response.Conflict?
            && step.response.page.ctx[PdbValidationMsg] == AlreadyRegisteredMsg(rows[i].pdb)
  {
  }

  /**
    A valid submission whose McGill id has no row but whose PDB id is already
    claimed is refused with the "already taken" message.
  */
  lemma DuplicatePdbIsTaken(rows: seq<Claim>, userSecret: string, name: string, typedPdb: string, mcgillId: string)
    requires FieldsValid(name, ToUpper(typedPdb), mcgillId)
    requires PdbTaken(rows, ToUpper(typedPdb)) && !McgillIdTaken(rows, mcgillId)
    ensures var step := RegisterSpec(rows, userSecret, name, typedPdb, mcgillId);
            && step.rows == rows
            && step.response.Conflict?
            && step.response.page.ctx[PdbValidationMsg] == PdbTakenMsg
  {
  }

  /**
    Every refusal re-renders the form echoing the submitted name, the
    upper-cased PDB id, the McGill id and the user secret; a success renders
    the confirmation with the stored values.
  */
  lemma RegisterPages(rows: seq<Claim>, userSecret: string, name: string, typedPdb: string, mcgillId: string)
    ensures var step := RegisterSpec(rows, userSecret, name, typedPdb, mcgillId);
            var page := step.response.page;
            && (step.response.Conflict? ==>
                  && page.name == Index
                  && page.ctx[NameField] == name
                  && page.ctx[PdbField] == ToUpper(typedPdb)
                  && page.ctx[McgillIdField] == mcgillId
                  && page.ctx[SecretKeyField] == userSecret
                  && (NameValidationMsg in page.ctx || PdbValidationMsg in page.ctx || McgillIdValidationMsg in page.ctx))
            && (step.response.Success? ==>
                  page == Template(Done, map[NameField := name, PdbField := ToUpper(typedPdb), McgillIdField := mcgillId]))
  {
  }

  /** The case in which the PDB id was typed does not matter: it is upper-cased first. */
  lemma PdbCaseIrrelevant(rows: seq<Claim>, userSecret: string, name: string, typedPdb: string, mcgillId: string)
    ensures RegisterSpec(rows, userSecret, name, typedPdb, mcgillId) ==
            RegisterSpec(rows, userSecret, name, ToUpper(typedPdb), mcgillId)
  {
    ToUpperIdempotent(typedPdb);
  }

  /**
    After a successful registration, the lookup of its McGill id returns the
    registered PDB id, and sending the same form again is refused with the
    message that names that PDB id.
  */
  lemma {:induction false} RegisterThenLookupAndRepeat(rows: seq<Claim>, userSecret: string, name: string, typedPdb: string, mcgillId: string)
    requires UniqueKeys(rows)
    requires RegisterSpec(rows, userSecret, name, typedPdb, mcgillId).response.Success?
    ensures var rows' := RegisterSpec(rows, userSecret, name, typedPdb, mcgillId).rows;
            var again := RegisterSpec(rows', userSecret, name, typedPdb, mcgillId);
            && FindPdb(rows', mcgillId) == Some(ToUpper(typedPdb))
            && again.rows == rows'
            && again.response.Conflict?
            && again.response.page.ctx[PdbValidationMsg] == AlreadyRegisteredMsg(ToUpper(typedPdb))
  {
    var c := Claim(ToUpper(typedPdb), mcgillId, name);
    SuccessIff(rows, userSecret, name, typedPdb, mcgillId);
    RowsAfterRegister(rows, userSecret, name, typedPdb, mcgillId);
    var rows' := rows + [c];
    assert AfterInsert(rows, c) == rows';
    FindPdbAfterInsert(rows, c, mcgillId);
    InsertKeepsUniqueKeys(rows, c);
    assert rows'[|rows|] == c;
    DuplicateMcgillIdNamesStoredPdb(rows', userSecret, name, typedPdb, mcgillId, |rows|);
  }

  /** The claim of the scenarios below: Alice's, as stored after she typed "2aro". */
  function AliceClaim(): Claim
  {
    Claim("2ARO", "260000001", "Alice")
  }

  /**
    On an empty table, Alice registers "2aro" under 260000001: the row stores
    "2ARO" and the lookup of 260000001 returns "2ARO".
  */
  lemma AliceRegisters(userSecret: string)
    ensures var first := RegisterSpec([], userSecret, "Alice", "2aro", "260000001");
            && first.response.Success?
            && first.rows == [AliceClaim()]
            && FindPdb(first.rows, "260000001") == Some("2ARO")
  {
    assert ToUpper("2aro") == "2ARO";
    PdbIdShape("2ARO");
    McgillIdShape("260000001");
    SuccessIff([], userSecret, "Alice", "2aro", "260000001");
    RowsAfterRegister([], userSecret, "Alice", "2aro", "260000001");
  }

  /** The claim of a second student, Bob, who typed "1abc". */
  function BobClaim(): Claim
  {
    Claim("1ABC", "260000002", "Bob")
  }

  /** After Alice's claim, Bob registers "1abc" under 260000002: both rows are stored. */
  lemma BobRegistersAfterAlice(userSecret: string)
    ensures var second := RegisterSpec([AliceClaim()], userSecret, "Bob", "1abc", "260000002");
            && second.response.Success?
            && second.rows == [AliceClaim(), BobClaim()]
  {
    var rows := [AliceClaim()];
    assert ToUpper("1abc") == "1ABC";
    PdbIdShape("1ABC");
    McgillIdShape("260000002");
    assert InsertAccepted(rows, BobClaim()) by {
      assert rows[0].pdb != "1ABC" && rows[0].mcgillId != "260000002";
    }
    SuccessIff(rows, userSecret, "Bob", "1abc", "260000002");
    RowsAfterRegister(rows, userSecret, "Bob", "1abc", "260000002");
  }

  /** After Alice's claim, another student asking for "2Aro" is told the PDB id is taken. */
  lemma SamePdbOtherStudent()
    ensures var other := RegisterSpec([AliceClaim()], "key", "Bob", "2Aro", "260000002");
            && other.rows == [AliceClaim()]
            && other.response.Conflict?
            && other.response.page.ctx[PdbValidationMsg] == PdbTakenMsg
  {
  }

  /** After Alice's claim, Alice asking for "1ABC" is told she already registered "2ARO". */
  lemma SameStudentOtherPdb()
    ensures var again := RegisterSpec([AliceClaim()], "key", "Alice", "1ABC", "260000001");
            && again.rows == [AliceClaim()]
            && again.response.Conflict?
            && again.response.page.ctx[PdbValidationMsg] == AlreadyRegisteredMsg("2ARO")
  {
    var rows := [AliceClaim()];
    assert ToUpper("1ABC") == "1ABC";
    PdbIdShape("1ABC");
    McgillIdShape("260000001");
    DuplicateMcgillIdNamesStoredPdb(rows, "key", "Alice", "1ABC", "260000001", 0);
  }
}
