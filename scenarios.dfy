/**
  A client of the handlers: what a caller can conclude from their contracts
  alone about a short session against a fresh table.
*/
module Scenarios {
  import opened Access
  import opened ClaimStore
  import opened Server
  import opened RegisterProperties

  /**
    Alice and Bob each register; the lookup of Alice's McGill id finds her
    PDB id, the user scope cannot see the listing, and the admin scope sees
    exactly the two claims, in some order.
  */
  method TwoClaimsSession(secrets: Secrets)
  {
    var store := new Store();
    var alice := new TemplateParams("Alice", "2aro", "260000001");
    var first := Register(store, secrets, alice);
    AliceRegisters(secrets.user);
    assert first.Success? && store.rows == [AliceClaim()];
    assert alice.pdb == "2ARO";

    var bob := new TemplateParams("Bob", "1abc", "260000002");
    var second := Register(store, secrets, bob);
    BobRegistersAfterAlice(secrets.user);
    assert second.Success? && store.rows == [AliceClaim(), BobClaim()];

    Validation.McgillIdShape("260000001");
    var found := DoCheck(store, secrets, "260000001");
    assert store.rows[0].mcgillId == "260000001";
    assert found == Success(Template(Done, map[PdbField := "2ARO"]));

    var hidden := Server.Admin(User, store);
    assert hidden == NotFound;

    var listing := Server.Admin(SecretKey.Admin, store);
    assert multiset(listing.registry) == multiset{AliceClaim(), BobClaim()};
  }
}
