/** The credential store of the web client (frontend/src/api/tokenVerification.js):
    the access and the refresh token kept under two fixed keys of the
    browser's local storage, written and removed together. */
module TokenStorage {
  import opened Common

  const AccessKey: string := "accessToken"
  const RefreshKey: string := "refreshToken"

  /** What `localStorage.getItem(key)` gives: the stored string or null. */
  function Lookup(items: map<string, string>, key: string): Option<string> {
    if key in items then Some(items[key]) else None
  }

  /** A value JavaScript treats as true in `if (token)`: a non-empty string. */
  predicate Truthy(v: Option<string>) {
    v.Some? && v.value != ""
  }

  /** The string `localStorage.setItem` stores for a value that may be
      missing: an absent value is stored as the text "undefined". */
  function Stored(v: Option<string>): (s: string)
    ensures v.Some? ==> s == v.value
    ensures v.None? ==> s == "undefined"
  {
    v.GetOr("undefined")
  }

  /** The storage after `setToken(access, refresh)`. */
  function AfterSet(items: map<string, string>, access: string, refresh: string): (r: map<string, string>)
    ensures Lookup(r, AccessKey) == Some(access)
    ensures Lookup(r, RefreshKey) == Some(refresh)
    ensures forall k :: k != AccessKey && k != RefreshKey ==> Lookup(r, k) == Lookup(items, k)
  {
    items[AccessKey := access][RefreshKey := refresh]
  }

  /** The storage after `removeToken()`. */
  function AfterRemove(items: map<string, string>): (r: map<string, string>)
    ensures Lookup(r, AccessKey) == None && Lookup(r, RefreshKey) == None
    ensures forall k :: k != AccessKey && k != RefreshKey ==> Lookup(r, k) == Lookup(items, k)
  {
    items - {AccessKey, RefreshKey}
  }

  /** Both tokens are stored, or neither is. */
  predicate Paired(items: map<string, string>) {
    AccessKey in items <==> RefreshKey in items
  }

  /** Setting and removing leave the pair complete or empty, whatever came before. */
  lemma PairedAfterEveryWrite(items: map<string, string>, access: string, refresh: string)
    ensures Paired(AfterSet(items, access, refresh))
    ensures Paired(AfterRemove(items))
  {
  }

  /** Removing twice is removing once. */
  lemma RemoveIdempotent(items: map<string, string>)
    ensures AfterRemove(AfterRemove(items)) == AfterRemove(items)
  {
  }

  /** A later `setToken` wins over an earlier one; a removal undoes any set. */
  lemma LastWriteWins(items: map<string, string>, a1: string, r1: string, a2: string, r2: string)
    ensures AfterSet(AfterSet(items, a1, r1), a2, r2) == AfterSet(items, a2, r2)
    ensures AfterRemove(AfterSet(items, a1, r1)) == AfterRemove(items)
  {
  }

  /** The browser's `localStorage`: a map from keys to strings. */
  class Storage {
    var items: map<string, string>

    constructor ()
      ensures items == map[]
    {
      items := map[];
    }
  }

  method SetToken(st: Storage, accessToken: string, refreshToken: string)
    modifies st
    ensures st.items == AfterSet(old(st.items), accessToken, refreshToken)
  {
    st.items := st.items[AccessKey := accessToken];
    st.items := st.items[RefreshKey := refreshToken];
  }

  method GetAccessToken(st: Storage) returns (token: Option<string>)
    ensures token == Lookup(st.items, AccessKey)
  {
    token := if AccessKey in st.items then Some(st.items[AccessKey]) else None;
  }

  method GetRefreshToken(st: Storage) returns (token: Option<string>)
    ensures token == Lookup(st.items, RefreshKey)
  {
    token := if RefreshKey in st.items then Some(st.items[RefreshKey]) else None;
  }

  method RemoveToken(st: Storage)
    modifies st
    ensures st.items == AfterRemove(old(st.items))
  {
    st.items := st.items - {AccessKey};
    st.items := st.items - {RefreshKey};
  }
}
