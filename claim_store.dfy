/**
  The `pdb_claims` table: rows of (pdb, mcgill_id, name) where `pdb` is UNIQUE
  and `mcgill_id` is the PRIMARY KEY. The relational engine is replaced by an
  in-memory sequence of rows that enforces the same two constraints.
*/
module ClaimStore {
  import opened Wrappers

  /** One row of `pdb_claims`. */
  datatype Claim = Claim(pdb: string, mcgillId: string, name: string)

  /** The `Student` argument of `make_id_claim`. */
  datatype Student = Student(name: string, id: string)

  /** The table constraints: no two rows share a PDB id or a McGill id. */
  ghost predicate UniqueKeys(rows: seq<Claim>)
  {
    forall i, j :: 0 <= i < j < |rows| ==> rows[i].pdb != rows[j].pdb && rows[i].mcgillId != rows[j].mcgillId
  }

  predicate PdbTaken(rows: seq<Claim>, pdb: string)
  {
    exists i :: 0 <= i < |rows| && rows[i].pdb == pdb
  }

  predicate McgillIdTaken(rows: seq<Claim>, id: string)
  {
    exists i :: 0 <= i < |rows| && rows[i].mcgillId == id
  }

  /** The INSERT is accepted exactly when it violates neither constraint. */
  predicate InsertAccepted(rows: seq<Claim>, c: Claim)
  {
    !PdbTaken(rows, c.pdb) && !McgillIdTaken(rows, c.mcgillId)
  }

  /** The table after an INSERT: the new row appended, or the table unchanged if it is refused. */
  function AfterInsert(rows: seq<Claim>, c: Claim): seq<Claim>
  {
    if InsertAccepted(rows, c) then rows + [c] else rows
  }

  /** An accepted INSERT keeps both constraints. */
  lemma InsertKeepsUniqueKeys(rows: seq<Claim>, c: Claim)
    requires UniqueKeys(rows)
    ensures UniqueKeys(AfterInsert(rows, c))
  {
  }

  /**
    An INSERT either adds exactly the one new row at the end, or leaves the
    table as it was; it adds the row exactly when neither key is present yet.
  */
  lemma InsertOutcome(rows: seq<Claim>, c: Claim)
    ensures InsertAccepted(rows, c) ==> |AfterInsert(rows, c)| == |rows| + 1 && AfterInsert(rows, c)[|rows|] == c
    ensures AfterInsert(rows, c)[..|rows|] == rows
    ensures !InsertAccepted(rows, c) <==> AfterInsert(rows, c) == rows
  {
  }

  /** `SELECT pdb FROM pdb_claims WHERE mcgill_id = $1`. */
  function FindPdb(rows: seq<Claim>, id: string): (r: Option<string>)
    ensures r.None? <==> !McgillIdTaken(rows, id)
    ensures r.Some? ==> exists i :: 0 <= i < |rows| && rows[i].mcgillId == id && rows[i].pdb == r.value
  {
    if rows == [] then None
    else if rows[0].mcgillId == id then Some(rows[0].pdb)
    else
      var r := FindPdb(rows[1..], id);
      assert forall i :: 1 <= i < |rows| ==> rows[i] == rows[1..][i - 1];
      r
  }

  /** In a table with unique keys the lookup returns the PDB id stored in the row of that McGill id. */
  lemma FindPdbExact(rows: seq<Claim>, i: nat)
    requires UniqueKeys(rows)
    requires i < |rows|
    ensures FindPdb(rows, rows[i].mcgillId) == Some(rows[i].pdb)
  {
  }

  /**
    A lookup after an accepted INSERT returns the inserted PDB id for the new
    McGill id and what it returned before for every other id.
  */
  lemma {:induction false} FindPdbAfterInsert(rows: seq<Claim>, c: Claim, id: string)
    requires InsertAccepted(rows, c)
    ensures FindPdb(AfterInsert(rows, c), id) == if id == c.mcgillId then Some(c.pdb) else FindPdb(rows, id)
  {
    if rows == [] {
      assert AfterInsert(rows, c) == [c];
    } else {
      var rows' := rows + [c];
      assert rows'[0] == rows[0];
      assert rows'[1..] == rows[1..] + [c];
      if rows[0].mcgillId != id {
        FindPdbAfterInsert(rows[1..], c, id);
      } else {
        assert rows[0].mcgillId != c.mcgillId;
      }
    }
  }

  /**
    The claim table. Rows are only ever appended: there is no update and no
    delete, so every row once inserted stays as it is.
  */
  class Store {
    var rows: seq<Claim>

    ghost predicate Valid()
      reads this
    {
      UniqueKeys(rows)
    }

    /** `init_db` on a fresh database: the table exists and is empty. */
    constructor ()
      ensures Valid() && rows == []
    {
      rows := [];
    }

    /**
      `make_id_claim`: insert the row and report whether the INSERT succeeded.
      It fails, changing nothing, exactly when the PDB id or the McGill id is
      already in the table.
    */
    method MakeIdClaim(pdb: string, student: Student) returns (ok: bool)
      requires Valid()
      modifies this
      ensures Valid()
      ensures ok <==> !PdbTaken(old(rows), pdb) && !McgillIdTaken(old(rows), student.id)
      ensures rows == if ok then old(rows) + [Claim(pdb, student.id, student.name)] else old(rows)
    {
      var c := Claim(pdb, student.id, student.name);
      InsertKeepsUniqueKeys(rows, c);
      ok := InsertAccepted(rows, c);
      rows := AfterInsert(rows, c);
    }

    /**
      `already_registered`: the PDB id stored for a McGill id, if the McGill id
      has a row; that row's PDB id and no other.
    */
    method AlreadyRegistered(mcgillId: string) returns (existing: Option<string>)
      requires Valid()
      ensures existing.Some? <==> McgillIdTaken(rows, mcgillId)
      ensures forall i :: 0 <= i < |rows| && rows[i].mcgillId == mcgillId ==> existing == Some(rows[i].pdb)
    {
      existing := FindPdb(rows, mcgillId);
      forall i | 0 <= i < |rows| && rows[i].mcgillId == mcgillId
        ensures existing == Some(rows[i].pdb)
      {
        FindPdbExact(rows, i);
      }
    }

    /** `fetch_all`: every row, in an order the storage chooses. */
    method FetchAll() returns (all: seq<Claim>)
      ensures multiset(all) == multiset(rows)
    {
      all := rows;
    }
  }
}
