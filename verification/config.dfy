/** The auth configuration check of lib/auth/better-auth.ts. The environment is
    an input: an unset variable is `None`. */
module AuthConfig {
  import opened Base
  import opened Unicode

  const DefaultBaseUrl: string := "http://localhost:3000"
  const MinSecretLength: nat := 32

  /** BETTER_AUTH_SECRET and BETTER_AUTH_URL as the process sees them. */
  datatype Env = Env(secret: Option<string>, url: Option<string>)

  datatype Config = Config(secret: string, baseUrl: string)

  /** `process.env.X || fallback`: an unset or empty variable falls back. */
  function OrDefault(v: Option<string>, fallback: string): (r: string)
    ensures Truthy(v) ==> r == v.value
    ensures !Truthy(v) ==> r == fallback
  {
    if Truthy(v) then v.value else fallback
  }

  /** `authConfig`: the secret defaults to the empty string, the base URL to the
      local development server. */
  function LoadConfig(env: Env): (c: Config)
    ensures c.baseUrl != ""
    ensures c.secret == "" <==> !Truthy(env.secret)
  {
    Config(OrDefault(env.secret, ""), OrDefault(env.url, DefaultBaseUrl))
  }

  /** `validateAuthConfig()` */
  function ValidateAuthConfig(c: Config): (ok: bool)
    ensures ok <==> Utf16Length(c.secret) >= MinSecretLength && c.baseUrl != ""
  {
    if c.secret == "" || Utf16Length(c.secret) < MinSecretLength then false
    else if c.baseUrl == "" then false
    else true
  }

  /** Because the base URL always has a fallback, a loaded configuration fails
      only on the secret: it is valid exactly when the secret variable holds at
      least 32 UTF-16 code units. */
  lemma LoadedConfigFailsOnlyOnSecret(env: Env)
    ensures ValidateAuthConfig(LoadConfig(env)) <==> env.secret.Some? && Utf16Length(env.secret.value) >= MinSecretLength
  {
  }

  /** An unset environment is rejected. */
  lemma UnsetEnvironmentRejected()
    ensures !ValidateAuthConfig(LoadConfig(Env(None, None)))
  {
  }

  /** The OAuth redirect URI as written: the raw BETTER_AUTH_URL is interpolated,
      so an unset variable prints as "undefined". */
  function RedirectUriAsWritten(env: Env, provider: string): (uri: string)
    ensures env.url.None? ==> StartsWith(uri, "undefined/")
  {
    var prefix := if env.url.Some? then env.url.value else "undefined";
    prefix + "/api/auth/" + provider + "/callback"
  }

  /** The redirect URI built from the configured base URL, which has a fallback. */
  function RedirectUri(env: Env, provider: string): (uri: string)
    ensures StartsWith(uri, LoadConfig(env).baseUrl + "/api/auth/")
  {
    var c := LoadConfig(env);
    assert (c.baseUrl + "/api/auth/" + provider + "/callback")[..|c.baseUrl + "/api/auth/"|] == c.baseUrl + "/api/auth/";
    c.baseUrl + "/api/auth/" + provider + "/callback"
  }

  /** With BETTER_AUTH_URL unset the configuration validates (given a secret) yet
      the redirect URI as written is not an absolute URL, while the base URL is. */
  lemma UnsetUrlBreaksRedirect(secret: string)
    requires Utf16Length(secret) >= MinSecretLength
    ensures var env := Env(Some(secret), None);
            && ValidateAuthConfig(LoadConfig(env))
            && StartsWith(RedirectUriAsWritten(env, "google"), "undefined/")
            && StartsWith(RedirectUri(env, "google"), DefaultBaseUrl + "/api/auth/")
  {
  }
}
