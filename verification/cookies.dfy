/**
 * The framework's cookie store as this back-office uses it: entries keyed by name,
 * read with `get(name)?.value`, written with `set(name, value, options)` and removed
 * with `delete(name)`, all in place.
 */
module Cookies {
  import opened Wrappers

  const AccessTokenCookie: string := "sb-access-token"
  const RefreshTokenCookie: string := "sb-refresh-token"

  datatype SameSite = Lax | Strict | NoRestriction

  datatype CookieOptions = CookieOptions(
    httpOnly: bool,
    secure: bool,
    sameSite: SameSite,
    maxAge: nat,
    path: string)

  datatype Cookie = Cookie(value: string, options: CookieOptions)

  /** `cookieStore.get(name)?.value` over a snapshot of the store. */
  function ValueOf(cookies: map<string, Cookie>, name: string): (v: Option<string>)
    ensures v.Some? <==> name in cookies
    ensures v.Some? ==> v.value == cookies[name].value
  {
    if name in cookies then Some(cookies[name].value) else None
  }

  class CookieStore {
    var entries: map<string, Cookie>

    constructor (initial: map<string, Cookie>)
      ensures entries == initial
    {
      entries := initial;
    }

    /** `cookieStore.set(name, value, options)`: adds or overwrites one entry. */
    method Set(name: string, value: string, options: CookieOptions)
      modifies this
      ensures entries == old(entries)[name := Cookie(value, options)]
    {
      entries := entries[name := Cookie(value, options)];
    }

    /** `cookieStore.delete(name)`: removes one entry, if present. */
    method Delete(name: string)
      modifies this
      ensures entries == old(entries) - {name}
    {
      entries := entries - {name};
    }
  }
}
