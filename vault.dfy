/**
 * The Vault client of the re-signing scripts: where a secret is read
 * from, how the secret map is unwrapped from the response of the KV
 * version 2 engine or of another engine, how a value is picked out of it,
 * and the Vault path of an Artifactory token. The HTTP exchange is an
 * input: the decoded body, or the status and body of an HTTP error.
 */
module Vault {
  import opened Py
  import opened Json

  datatype VaultClient = VaultClient(vaultUrl: string, vaultToken: string)

  /** `VaultClient(url, token)`: the URL is kept without its trailing slashes. */
  function NewVaultClient(vaultUrl: string, vaultToken: string): (r: VaultClient)
    ensures StartsWith(vaultUrl, r.vaultUrl)
    ensures |r.vaultUrl| > 0 ==> r.vaultUrl[|r.vaultUrl| - 1] != '/'
    ensures forall i :: |r.vaultUrl| <= i < |vaultUrl| ==> vaultUrl[i] == '/'
    ensures r.vaultToken == vaultToken
  {
    VaultClient(RStripChars(vaultUrl, {'/'}), vaultToken)
  }

  /** The address a secret is read from. */
  function SecretUrl(vc: VaultClient, path: string): string {
    vc.vaultUrl + "/v1/" + path
  }

  /** However many slashes the configured URL ends with, exactly one separates it from "v1". */
  lemma SecretUrlSingleSlash(vaultUrl: string, k: nat, token: string, path: string)
    requires |vaultUrl| == 0 || vaultUrl[|vaultUrl| - 1] != '/'
    ensures SecretUrl(NewVaultClient(vaultUrl + seq(k, _ => '/'), token), path) == vaultUrl + "/v1/" + path
  {
    var slashes := seq(k, _ => '/');
    var u := vaultUrl + slashes;
    var r := RStripChars(u, {'/'});
    assert u[..|vaultUrl|] == vaultUrl;
    if |r| < |vaultUrl| {
      assert u[|vaultUrl| - 1] == vaultUrl[|vaultUrl| - 1];
    }
  }

  /** The answer of the Vault server. */
  datatype Response = Body(data: Json) | HttpError(code: int, body: string)

  /** A path served by the KV version 2 engine. */
  predicate IsKvV2Path(path: string) {
    Contains(path, "/kv/data/") || Contains(path, "/data/")
  }

  /**
   * The secret map inside a response: for a KV version 2 path,
   * `data.data` when the inner map has "data", else `data` when present,
   * else the whole body; for any other engine `data` when present, else
   * the whole body.
   */
  function Unwrap(path: string, data: Json): Result<Json> {
    var hasData :- PyIn("data", data);
    if IsKvV2Path(path) then
      if hasData then
        var inner :- Index(data, "data");
        var nested :- PyIn("data", inner);
        if nested then Index(inner, "data") else Ok(inner)
      else Ok(data)
    else if hasData then Index(data, "data")
    else Ok(data)
  }

  /**
   * `read_secret(path, key)`: an HTTP error becomes `RuntimeError`; with a
   * non-empty key the value under it, "" when missing or `None`; with no
   * key the JSON text of the whole secret map.
   */
  function ReadSecret(path: string, key: Option<string>, response: Response): Result<string> {
    match response
    case HttpError(code, body) =>
      Err(RuntimeError("Failed to read secret from Vault path '" + path + "': HTTP " + IntToString(code) + " - " + body))
    case Body(data) =>
      var secret :- Unwrap(path, data);
      if key.Some? && key.value != "" then
        var value :- GetOr(secret, key.value, JStr(""));
        if value == JNull then Ok("") else Ok(PyStr(value))
      else Ok(Dumps(secret))
  }

  /** A KV version 2 response `{"data": {"data": S}}` unwraps to S; without the inner "data", to the inner map. */
  lemma UnwrapKvV2(path: string, outer: seq<(string, Json)>, inner: seq<(string, Json)>)
    requires IsKvV2Path(path)
    requires Lookup(outer, "data") == Some(JObj(inner))
    ensures Lookup(inner, "data").Some? ==> Unwrap(path, JObj(outer)) == Ok(Lookup(inner, "data").value)
    ensures Lookup(inner, "data").None? ==> Unwrap(path, JObj(outer)) == Ok(JObj(inner))
  {
  }

  /**
   * Outside KV version 2 a single level is unwrapped, even when the inner
   * map itself has "data"; a body without "data" is the secret itself,
   * on any path.
   */
  lemma UnwrapOtherEngine(path: string, outer: seq<(string, Json)>)
    ensures !IsKvV2Path(path) && Lookup(outer, "data").Some? ==> Unwrap(path, JObj(outer)) == Ok(Lookup(outer, "data").value)
    ensures Lookup(outer, "data").None? ==> Unwrap(path, JObj(outer)) == Ok(JObj(outer))
  {
  }

  /**
   * Picking a key out of a secret map: its text when present and not
   * `None`, "" otherwise; an HTTP error always raises `RuntimeError`.
   */
  lemma ReadSecretKey(path: string, key: string, data: Json, secret: seq<(string, Json)>, code: int, body: string)
    requires key != ""
    requires Unwrap(path, data) == Ok(JObj(secret))
    ensures Lookup(secret, key).None? ==> ReadSecret(path, Some(key), Body(data)) == Ok("")
    ensures Lookup(secret, key) == Some(JNull) ==> ReadSecret(path, Some(key), Body(data)) == Ok("")
    ensures Lookup(secret, key).Some? && Lookup(secret, key).value != JNull ==>
              ReadSecret(path, Some(key), Body(data)) == Ok(PyStr(Lookup(secret, key).value))
    ensures ReadSecret(path, Some(key), HttpError(code, body)).Err?
    ensures ReadSecret(path, Some(key), HttpError(code, body)).error.RuntimeError?
  {
  }

  /** Without a key (or with an empty one) the whole secret map is returned as JSON text. */
  lemma ReadSecretWhole(path: string, key: Option<string>, data: Json)
    requires key.None? || key == Some("")
    requires Unwrap(path, data).Ok?
    ensures ReadSecret(path, key, Body(data)) == Ok(Dumps(Unwrap(path, data).value))
  {
  }

  const DefaultRole := "SonarSource-gh-action_release"
  const OwnerPrefix := "SonarSource-"

  /** The role name of a repository owner: underscores become dashes, and "SonarSource-" is put in front unless there. */
  function RoleName(owner: Option<string>): (r: string)
    ensures StartsWith(r, OwnerPrefix)
  {
    if owner.None? || owner.value == "" then DefaultRole
    else
      var name := Replace(owner.value, "_", "-");
      if StartsWith(name, OwnerPrefix) then name else OwnerPrefix + name
  }

  /** The Vault path and key of the Artifactory token of a role. */
  function ArtifactoryTokenPath(owner: Option<string>, roleSuffix: string): (string, string) {
    ("development/artifactory/token/" + RoleName(owner) + "-" + roleSuffix, "access_token")
  }

  /**
   * A given owner yields a role name free of underscores that ends with the
   * owner's dashed name; only the default keeps its underscore.
   */
  lemma RoleNameOfOwner(owner: string)
    requires owner != ""
    ensures '_' !in RoleName(Some(owner))
    ensures |RoleName(Some(owner))| == |owner| || |RoleName(Some(owner))| == |OwnerPrefix| + |owner|
    ensures EndsWith(RoleName(Some(owner)), Replace(owner, "_", "-"))
  {
    ReplaceRemovesChar(owner, '_', '-');
    var name := Replace(owner, "_", "-");
    assert forall c :: c in OwnerPrefix ==> c != '_';
    if !StartsWith(name, OwnerPrefix) {
      assert (OwnerPrefix + name)[|OwnerPrefix + name| - |name|..] == name;
    }
  }

  /** An owner already named with the prefix and no underscore is kept as it is; a missing one is the default role. */
  lemma RoleNameKeepsPrefixed(owner: string)
    requires StartsWith(owner, OwnerPrefix) && '_' !in owner
    ensures RoleName(Some(owner)) == owner
    ensures RoleName(None) == RoleName(Some("")) == DefaultRole
  {
    ReplaceAbsent(owner, "_", "-") by {
      if Contains(owner, "_") {
        ContainsCharIff(owner, '_');
      }
    }
  }
}
