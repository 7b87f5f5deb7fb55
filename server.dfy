/**
  The request handlers that use the claim store: registration (`register`),
  lookup (`do_check`) and the admin listing (`admin`). In the source each
  handler receives a `SecretKey` already parsed from the path; `register` and
  `do_check` ignore theirs, so the model leaves that parameter out of them.

  A rendered page is modelled as the template's name and the context map it
  is rendered with.
*/
module Server {
  import opened Wrappers
  import opened Validation
  import opened Access
  import opened ClaimStore

  /** The keys of the template contexts. */
  datatype Field =
    | NameValidationMsg      // "name_validation_msg"
    | PdbValidationMsg       // "pdb_validation_msg"
    | McgillIdValidationMsg  // "mcgill_id_validation_msg"
    | SecretKeyField         // "secret_key"
    | NameField              // "name"
    | PdbField               // "pdb"
    | McgillIdField          // "mcgill_id"

  type Context = map<Field, string>

  /** The templates: `index` (the form), `done`, `check`. */
  datatype TemplateName = Index | Done | Check

  datatype Template = Template(name: TemplateName, ctx: Context)

  /** `RegisterResponse`: `Conflict` is answered with status 400. */
  datatype RegisterResponse = Success(page: Template) | Conflict(page: Template)

  /** `AdminResponse`: the listing of every claim, or a 404. */
  datatype AdminResponse = Listing(registry: seq<Claim>) | NotFound

  const NameInvalidMsg := "Please enter a valid name."
  const PdbInvalidMsg := "Please enter a valid PDB id (e.g. 2ARO)."
  const McgillIdInvalidMsg := "Please enter a valid 9-digit McGill ID."
  const PdbTakenMsg := "This PDB id is already taken. Please choose another."
  const NotRegisteredMsg := "No PDB id registered for this McGill ID"

  function AlreadyRegisteredMsg(pdb: string): string
  {
    "You have already registered PDB id " + pdb
  }

  /** The three form fields; `normalize` updates `pdb` in place. */
  class TemplateParams {
    var name: string
    var pdb: string
    var mcgillId: string

    constructor (name: string, pdb: string, mcgillId: string)
      ensures this.name == name && this.pdb == pdb && this.mcgillId == mcgillId
    {
      this.name, this.pdb, this.mcgillId := name, pdb, mcgillId;
    }

    /** Upper-case the PDB id; the name and the McGill id stay as typed. */
    method Normalize()
      modifies this
      ensures pdb == ToUpper(old(pdb))
      ensures name == old(name) && mcgillId == old(mcgillId)
    {
      pdb := ToUpper(pdb);
    }
  }

  /**
    The validation messages of a submission: one entry per field that fails
    its check, under that field's key.
  */
  function ValidationFeedback(name: string, pdb: string, mcgillId: string): (f: Context)
    ensures NameValidationMsg in f <==> !IsValidName(name)
    ensures PdbValidationMsg in f <==> !IsValidPdb(pdb)
    ensures McgillIdValidationMsg in f <==> !IsValidMcgillId(mcgillId)
    ensures f.Keys <= {NameValidationMsg, PdbValidationMsg, McgillIdValidationMsg}
    ensures NameValidationMsg in f ==> f[NameValidationMsg] == NameInvalidMsg
    ensures PdbValidationMsg in f ==> f[PdbValidationMsg] == PdbInvalidMsg
    ensures McgillIdValidationMsg in f ==> f[McgillIdValidationMsg] == McgillIdInvalidMsg
    ensures f == map[] <==> IsValidName(name) && IsValidPdb(pdb) && IsValidMcgillId(mcgillId)
  {
    var withName: Context := if IsValidName(name) then map[] else map[NameValidationMsg := NameInvalidMsg];
    var withPdb := if IsValidPdb(pdb) then withName else withName[PdbValidationMsg := PdbInvalidMsg];
    var f := if IsValidMcgillId(mcgillId) then withPdb else withPdb[McgillIdValidationMsg := McgillIdInvalidMsg];
    assert NameValidationMsg in withName ==> NameValidationMsg in f;
    assert PdbValidationMsg in withPdb ==> PdbValidationMsg in f;
    f
  }

  /** The form page re-rendered after a rejected submission, with the submitted values echoed. */
  function ConflictPage(feedback: Context, userSecret: string, name: string, pdb: string, mcgillId: string): Template
  {
    Template(Index, feedback[SecretKeyField := userSecret][NameField := name][PdbField := pdb][McgillIdField := mcgillId])
  }

  /** What one registration request answers and the table it leaves. */
  datatype RegisterStep = RegisterStep(response: RegisterResponse, rows: seq<Claim>)

  /**
    The specification of `register`: normalise, validate, insert only when
    validation passed, and after a refused insert look the McGill id up to
    choose the message.
  */
  function RegisterSpec(rows: seq<Claim>, userSecret: string, name: string, typedPdb: string, mcgillId: string): RegisterStep
  {
    var pdb := ToUpper(typedPdb);
    var feedback := ValidationFeedback(name, pdb, mcgillId);
    var claim := Claim(pdb, mcgillId, name);
    var rows' := if feedback == map[] then AfterInsert(rows, claim) else rows;
    var feedback' :=
      if feedback == map[] && !InsertAccepted(rows, claim) then
        feedback[PdbValidationMsg := match FindPdb(rows', mcgillId)
                                     case Some(stored) => AlreadyRegisteredMsg(stored)
                                     case None => PdbTakenMsg]
      else feedback;
    var response :=
      if feedback' == map[] then Success(Template(Done, map[NameField := name, PdbField := pdb, McgillIdField := mcgillId]))
      else Conflict(ConflictPage(feedback', userSecret, name, pdb, mcgillId));
    RegisterStep(response, rows')
  }

  /**
    `register`. The form is normalised in place, the feedback map is built by
    successive inserts, and the table is changed only through `make_id_claim`.
  */
  method Register(store: Store, secrets: Secrets, reg: TemplateParams) returns (response: RegisterResponse)
    requires store.Valid()
    modifies store, reg
    ensures store.Valid()
    ensures reg.pdb == ToUpper(old(reg.pdb)) && reg.name == old(reg.name) && reg.mcgillId == old(reg.mcgillId)
    ensures RegisterStep(response, store.rows) == RegisterSpec(old(store.rows), secrets.user, old(reg.name), old(reg.pdb), old(reg.mcgillId))
  {
    reg.Normalize();
    var feedback: Context := map[];
    if reg.name == [] {
      feedback := feedback[NameValidationMsg := NameInvalidMsg];
    }
    if !IsValidPdb(reg.pdb) {
      feedback := feedback[PdbValidationMsg := PdbInvalidMsg];
    }
    if !IsValidMcgillId(reg.mcgillId) {
      feedback := feedback[McgillIdValidationMsg := McgillIdInvalidMsg];
    }
    assert feedback == ValidationFeedback(reg.name, reg.pdb, reg.mcgillId);

    if feedback == map[] {
      var claim := store.MakeIdClaim(reg.pdb, Student(reg.name, reg.mcgillId));
      if !claim {
        var existing := store.AlreadyRegistered(reg.mcgillId);
        match existing
        case Some(pdbId) =>
          feedback := feedback[PdbValidationMsg := AlreadyRegisteredMsg(pdbId)];
        case None =>
          feedback := feedback[PdbValidationMsg := PdbTakenMsg];
      }
    }

    if feedback == map[] {
      response := Success(Template(Done, map[NameField := reg.name, PdbField := reg.pdb, McgillIdField := reg.mcgillId]));
    } else {
      feedback := feedback[SecretKeyField := secrets.user];
      feedback := feedback[NameField := reg.name];
      feedback := feedback[PdbField := reg.pdb];
      feedback := feedback[McgillIdField := reg.mcgillId];
      response := Conflict(Template(Index, feedback));
    }
  }

  /** The lookup page re-rendered with a message under the McGill id field. */
  function CheckPage(msg: string, userSecret: string, mcgillId: string): Template
  {
    Template(Check, map[McgillIdValidationMsg := msg, McgillIdField := mcgillId, SecretKeyField := userSecret])
  }

  /**
    `do_check`: a malformed McGill id is refused before the table is read; a
    well-formed one answers with the PDB id stored for it, or says that none is.
  */
  method DoCheck(store: Store, secrets: Secrets, mcgillId: string) returns (response: RegisterResponse)
    requires store.Valid()
    ensures response.Success? <==> IsValidMcgillId(mcgillId) && McgillIdTaken(store.rows, mcgillId)
    ensures !IsValidMcgillId(mcgillId) ==> response == Conflict(CheckPage(McgillIdInvalidMsg, secrets.user, mcgillId))
    ensures IsValidMcgillId(mcgillId) && !McgillIdTaken(store.rows, mcgillId) ==>
              response == Conflict(CheckPage(NotRegisteredMsg, secrets.user, mcgillId))
    ensures forall i :: 0 <= i < |store.rows| && store.rows[i].mcgillId == mcgillId && IsValidMcgillId(mcgillId) ==>
              response == Success(Template(Done, map[PdbField := store.rows[i].pdb]))
  {
    if !IsValidMcgillId(mcgillId) {
      return Conflict(CheckPage(McgillIdInvalidMsg, secrets.user, mcgillId));
    }
    var existing := store.AlreadyRegistered(mcgillId);
    match existing
    case Some(pdbId) =>
      response := Success(Template(Done, map[PdbField := pdbId]));
    case None =>
      response := Conflict(CheckPage(NotRegisteredMsg, secrets.user, mcgillId));
  }

  /** `admin`: the user scope gets a 404; the admin scope gets every claim, in storage order. */
  method Admin(key: SecretKey, store: Store) returns (response: AdminResponse)
    ensures key == User ==> response == NotFound
    ensures key == SecretKey.Admin ==> response.Listing? && multiset(response.registry) == multiset(store.rows)
  {
    match key
    case User =>
      response := NotFound;
    case Admin =>
      var registry := store.FetchAll();
      response := Listing(registry);
  }
}
