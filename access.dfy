/**
  Access control: the first path segment of every route is a secret key that
  must equal one of two configured secrets. The secrets are read from files
  once at start-up and never change; here they are a value passed in.
*/
module Access {
  import opened Wrappers

  /** The two configured secrets: the user key and the admin key. */
  datatype Secrets = Secrets(user: string, admin: string)

  /** The scope a valid key grants. */
  datatype SecretKey = User | Admin

  /** The error of a segment that matches neither secret. */
  datatype InvalidKey = InvalidKey

  /** `SecretKey::from_param`: the user key is compared first. */
  function FromParam(param: string, secrets: Secrets): (r: Result<SecretKey, InvalidKey>)
    ensures r == Ok(User) <==> param == secrets.user
    ensures r == Ok(Admin) <==> param != secrets.user && param == secrets.admin
    ensures r == Err(InvalidKey) <==> param != secrets.user && param != secrets.admin
  {
    if param == secrets.user then Ok(User)
    else if param == secrets.admin then Ok(Admin)
    else Err(InvalidKey)
  }

  /**
    When both secrets are the same string, that string grants only the user
    scope: no segment at all reaches the admin scope.
  */
  lemma EqualSecretsHideAdmin(param: string, secrets: Secrets)
    requires secrets.user == secrets.admin
    ensures FromParam(param, secrets) != Ok(Admin)
    ensures FromParam(param, secrets).Ok? <==> param == secrets.user
  {
  }
}
