/** Values that several components exchange. */
module Domain {
  import opened Sequences

  datatype Scope = Scope(hostId: Option<string>, providerId: Option<string>, projectId: Option<string>)

  datatype Sensitivity = Public | Internal | Sensitive | SecretLike

  datatype Lifecycle = Discovered | Candidate | Approved | Active | Stale | Superseded | Deleted

  function Clamp(n: nat, low: nat, high: nat): nat {
    if n < low then low else if high < n then high else n
  }
}
