# PDB id claim registration, modelled in Dafny

The server lets a student claim one PDB id (a Protein Data Bank structure
id such as `2ARO`) under their McGill id. Each request carries a secret key
in its first path segment. The key is either the user key or the admin key.
The core is:

- **Validation**: a PDB id is upper-cased, then must match `^\d[A-Z0-9]{3}$`.
  A McGill id must match `^\d{9}$`. A name must be non-empty.
- **Secret keys**: `SecretKey::from_param` maps a path segment to `User`,
  `Admin` or `InvalidKey`. It compares with the user secret first.
- **The claim table** `pdb_claims(pdb UNIQUE, mcgill_id PRIMARY KEY, name)`.
  Inserts only ever add rows (`make_id_claim`). There is a lookup by McGill
  id (`already_registered`) and a listing of all rows (`fetch_all`).
- **Handlers**: `register` normalises, validates, inserts, and then names the
  conflict. `do_check` looks a McGill id up. `admin` lists every claim for
  the admin key and answers 404 for the user key.

Files:

- `wrappers.dfy`: `Option` and `Result`.
- `validation.dfy`: ASCII character classes and upper-casing. It also holds a
  model of the two anchored regular expressions as sequences of
  (character class, exact count) pieces, with lemmas that describe directly
  which strings each one accepts.
- `access.dfy`: `from_param`.
- `claim_store.dfy`: rows and the uniqueness constraints. It also holds the
  specification functions of INSERT and lookup, and the class `Store`, which
  the handlers update in place.
- `server.dfy`: the form object and its in-place `Normalize`, the handlers,
  and `RegisterSpec`. `RegisterSpec` is the function that the imperative
  `Register` method is proved to implement.
- `register_properties.dfy`: lemmas about `RegisterSpec`.
- `scenarios.dfy`: a client session. It checks that the handler contracts
  alone let a caller conclude the expected pages.

The name check is `reg.name.is_empty()` with no trimming (src/main.rs:142),
so a name made only of spaces is accepted; the model does the same.

## Model

| member | source | states |
|---|---|---|
| `Validation.UpperChar` | src/main.rs:53-55 | ASCII letters of either case become upper-case letters, a lower-case letter becoming the capital at the same place in the alphabet; every other character is kept; no lower-case letter remains; digits stay digits and nothing else becomes one |
| `Validation.ToUpperIdempotent` | src/main.rs:53-55 | normalising an already normalised PDB id changes nothing |
| `Validation.ToUpperHasNoLower` | src/main.rs:53-55 | after normalisation the PDB id contains no lower-case letter |
| `Validation.MatchIffPositionwise` | src/main.rs:20-21 | an anchored pattern of counted character classes matches a string iff the string has the pattern's width and each character is in the class at its position |
| `Validation.PdbIdShape` | src/main.rs:20 | `PDB_RE` accepts exactly the four-character strings: a digit, then three characters that are each a digit or an upper-case A–Z |
| `Validation.McgillIdShape` | src/main.rs:21 | `MCG_ID_RE` accepts exactly the strings of nine digits |
| `Validation.NormalizedPdbIdShape` | src/main.rs:140-153 | a typed PDB id passes the check after upper-casing iff it is four characters: a digit, then three letters of either case or digits |
| `Validation.ValidationExamples` | src/main.rs:20-21 | "2aro" normalises to the valid "2ARO"; "22ARO" and "2AR" are rejected; "123456789" is accepted; "12345678", "1234567890" and "12345678A" are rejected |
| `Access.FromParam` | src/main.rs:74-82 | the segment is `User` iff it equals the user secret; `Admin` iff it differs from the user secret and equals the admin secret; `InvalidKey` iff it equals neither |
| `Access.EqualSecretsHideAdmin` | src/main.rs:74-82 | when the two secrets are equal, no segment reaches the admin scope, and only that secret is accepted at all |
| `ClaimStore.InsertKeepsUniqueKeys` | src/main.rs:295-299 | an INSERT that passes the UNIQUE and PRIMARY KEY constraints leaves no two rows sharing a PDB id or a McGill id |
| `ClaimStore.InsertOutcome` | src/main.rs:30-43 | the table is append-only: an INSERT never alters or removes an existing row, and it changes the table at all only when neither key is present |
| `ClaimStore.FindPdb` | src/main.rs:124-130 | the lookup finds nothing iff no row has that McGill id, and whatever it finds is the PDB id of a row with that McGill id |
| `ClaimStore.FindPdbExact` | src/main.rs:124-130 | in a table with unique keys the lookup of a row's McGill id returns exactly that row's PDB id |
| `ClaimStore.FindPdbAfterInsert` | src/main.rs:124-130 | after an accepted INSERT the lookup returns the inserted PDB id for the new McGill id and is unchanged for every other id |
| `ClaimStore.Store.constructor` | src/main.rs:292-305 | a freshly created table is empty and satisfies both constraints |
| `ClaimStore.Store.MakeIdClaim` | src/main.rs:30-43 | the INSERT succeeds iff neither the PDB id nor the McGill id is stored; on success exactly the one row is appended, on failure the table is unchanged; the constraints are kept |
| `ClaimStore.Store.AlreadyRegistered` | src/main.rs:124-130 | returns a PDB id iff the McGill id has a row, and then that row's stored PDB id |
| `ClaimStore.Store.FetchAll` | src/main.rs:211-215 | returns every row exactly once, in an unspecified order (same multiset as the table) |
| `Server.TemplateParams.constructor` | src/main.rs:45-50 | the form object holds the three submitted fields |
| `Server.TemplateParams.Normalize` | src/main.rs:53-55 | the PDB id is replaced by its upper-case form; the name and the McGill id are unchanged |
| `Server.ValidationFeedback` | src/main.rs:141-160 | each of the three validation keys is present iff its field fails its check, carrying that field's message; no other key is present; the map is empty iff all three fields pass |
| `Server.Register` | src/main.rs:132-200 | the in-place handler normalises the form and produces the answer and the new table of `RegisterSpec` on the old table; the table keeps its constraints |
| `Server.DoCheck` | src/main.rs:241-280 | success iff the McGill id is well formed and has a row, and the page then shows that row's PDB id; a malformed id gets the validation message; a well-formed id without a row gets the "no PDB id registered" message |
| `Server.Admin` | src/main.rs:217-230 | the user scope gets NotFound; the admin scope gets a listing holding every row exactly once |
| `RegisterProperties.SuccessIff` | src/main.rs:141-199 | registration succeeds iff all three fields are valid and neither the normalised PDB id nor the McGill id is stored |
| `RegisterProperties.RowsAfterRegister` | src/main.rs:162-171 | a success adds exactly the one row (name, upper-cased PDB id, McGill id); a conflict leaves the table unchanged |
| `RegisterProperties.RegisterKeepsUniqueKeys` | src/main.rs:162-171 | registration never creates two rows with the same PDB id or McGill id |
| `RegisterProperties.InvalidSubmissionRejected` | src/main.rs:141-171 | a submission with an invalid field never changes the table and is answered with the form carrying exactly the failing fields' messages |
| `RegisterProperties.RejectionRepeats` | src/main.rs:141-199 | sending a rejected submission again yields the same page and the same table |
| `RegisterProperties.DuplicateMcgillIdNamesStoredPdb` | src/main.rs:172-178 | a valid submission whose McGill id already has a row is refused, the table is unchanged, and the message names the stored PDB id, not the submitted one |
| `RegisterProperties.DuplicatePdbIsTaken` | src/main.rs:179-184 | a valid submission whose McGill id has no row and whose upper-cased PDB id is already stored is refused with the "already taken" message and the table is unchanged |
| `RegisterProperties.RegisterPages` | src/main.rs:188-199 | a conflict re-renders the form with the name, the upper-cased PDB id, the McGill id, the user secret and at least one validation message; a success renders the confirmation with the stored values |
| `RegisterProperties.PdbCaseIrrelevant` | src/main.rs:140 | registering with any casing of a PDB id has the same outcome as registering with its upper-case form |
| `RegisterProperties.RegisterThenLookupAndRepeat` | src/main.rs:162-185 | after a success the lookup of the McGill id returns the registered PDB id, and re-sending the same form is refused with the message naming that PDB id |
| `RegisterProperties.AliceRegisters` | src/main.rs:132-200 | on an empty table, "Alice", "2aro", "260000001" succeeds, stores "2ARO", and the lookup of "260000001" returns "2ARO" |
| `RegisterProperties.BobRegistersAfterAlice` | src/main.rs:132-200 | a second student with a different PDB id and McGill id is accepted and both rows are stored |
| `RegisterProperties.SamePdbOtherStudent` | src/main.rs:179-184 | after Alice's claim, another McGill id asking for "2Aro" is told the PDB id is taken |
| `RegisterProperties.SameStudentOtherPdb` | src/main.rs:172-178 | after Alice's claim, her McGill id asking for "1ABC" is told she already registered "2ARO" |

## Left out

- Rocket routing, the `Responder` impls, and the HTTP statuses beyond which
  response variant is chosen. `Conflict` is the 400 answer and `NotFound`
  the 404 one.
- Template rendering. A page is a template name and its context map.
- The `index` and `check` GET handlers. They only render empty forms.
- The CSS and favicon file serving, `rocket()` launch, pool setup, and
  `println!`/`log::info!`.
- Whether the user key's 404 cannot be told apart from an unknown route's
  404. That depends on Rocket's responders and catchers. The model shows only
  that `admin` answers `NotFound`.
- Form parsing (`FromForm`). A request with a missing field never reaches a
  handler.
- The routing step on an `InvalidKey`. Handlers receive an already classified
  `SecretKey`.
- Reading the two secrets from files at start-up and trimming them. They are
  passed in as an immutable `Secrets` value.
- SQLite itself. The table is an in-memory sequence of rows that enforces the
  same two constraints.
- Non-constraint failures of `make_id_claim`. It reports any execution error
  as `false`, and the model treats every `false` as a constraint violation.
- Storage I/O errors of `already_registered` and `fetch_all`. They become an
  `InternalServerError` through `?`. In the model these reads cannot fail.
- `init_db` on an existing database file. `Store.constructor` models a fresh,
  empty table only, so persistence across restarts is not modelled.
- Concurrent requests. They rely on SQLite's atomic constraint checks; the
  model is one sequential store.
- The race between a failed INSERT and the later lookup. It cannot arise here
  because nothing deletes rows.
- Unicode. The regex crate's `\d` accepts any Unicode decimal digit, and
  `to_uppercase` performs full Unicode case mapping. The model uses ASCII
  digits and maps only `a`–`z`. For example, Rust upper-cases U+017F (long s)
  to `S`, so the server would accept "2ſAB" as "2SAB" while the model rejects
  it. Characters whose upper-case form is longer (U+FB00 becomes "FF") are
  also not modelled.
- The order of `fetch_all` results. No ORDER BY is used, so `FetchAll` and
  `Admin` promise only the multiset of rows.
