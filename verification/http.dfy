/**
 * The slice of the `http` crate the core relies on: which strings a header
 * value may hold, which ones read back as text, header maps with `get`,
 * `insert` and `append`, status codes, and `str::contains`.
 */
module Http {
  import opened Wrappers

  const OK: nat := 200
  const SEE_OTHER: nat := 303
  const NOT_ACCEPTABLE: nat := 406
  const INTERNAL_SERVER_ERROR: nat := 500

  /** `HeaderValue::from_str` accepts a tab and every byte from 32 up except DEL (127);
      a non-ASCII character is encoded as bytes of 128 and above, so it is accepted too. */
  predicate ValidValueChar(c: char) {
    c == '\t' || (32 <= c as int && c as int != 127)
  }

  predicate ValidHeaderValue(s: string) {
    forall i :: 0 <= i < |s| ==> ValidValueChar(s[i])
  }

  /** `HeaderValue::to_str` succeeds only on tab and the visible ASCII range 32..126. */
  predicate VisibleAsciiChar(c: char) {
    c == '\t' || (32 <= c as int < 127)
  }

  predicate VisibleAscii(s: string) {
    forall i :: 0 <= i < |s| ==> VisibleAsciiChar(s[i])
  }

  /** Every value that reads back as text is also one `from_str` accepts. */
  lemma VisibleAsciiIsValid(s: string)
    requires VisibleAscii(s)
    ensures ValidHeaderValue(s)
  {
  }

  /** A header map: each (lower-case) name holds its values in insertion order. */
  type HeaderMap<V> = map<string, seq<V>>

  function ValuesOf<V>(h: HeaderMap<V>, name: string): seq<V> {
    if name in h then h[name] else []
  }

  /** `HeaderMap::contains_key`. */
  predicate ContainsKey<V>(h: HeaderMap<V>, name: string) {
    ValuesOf(h, name) != []
  }

  /** `HeaderMap::get`: the first value stored under `name`. */
  function Get<V>(h: HeaderMap<V>, name: string): (r: Option<V>)
    ensures r.Some? <==> ContainsKey(h, name)
    ensures r.Some? ==> r.value == h[name][0]
  {
    if ContainsKey(h, name) then Some(h[name][0]) else None
  }

  /** `HeaderMap::insert`: `name` ends up with exactly the one value `v`; other names keep theirs. */
  function Insert<V>(h: HeaderMap<V>, name: string, v: V): (r: HeaderMap<V>)
    ensures r.Keys == h.Keys + {name}
    ensures r[name] == [v]
    ensures forall k :: k in h && k != name ==> r[k] == h[k]
  {
    h[name := [v]]
  }

  /** `HeaderMap::append`: `v` is added after the values already under `name`. */
  function Append<V>(h: HeaderMap<V>, name: string, v: V): (r: HeaderMap<V>)
    ensures r.Keys == h.Keys + {name}
    ensures r[name] == ValuesOf(h, name) + [v]
    ensures forall k :: k in h && k != name ==> r[k] == h[k]
  {
    h[name := ValuesOf(h, name) + [v]]
  }

  /** Appending every value of `vs` under `name`, one after the other. */
  function AppendAll<V>(h: HeaderMap<V>, name: string, vs: seq<V>): HeaderMap<V> {
    if vs == [] then h else h[name := ValuesOf(h, name) + vs]
  }

  lemma AppendAllStep<V>(h: HeaderMap<V>, name: string, vs: seq<V>, v: V)
    ensures Append(AppendAll(h, name, vs), name, v) == AppendAll(h, name, vs + [v])
  {
    if vs != [] {
      assert ValuesOf(AppendAll(h, name, vs), name) + [v] == ValuesOf(h, name) + (vs + [v]);
    } else {
      assert vs + [v] == [v];
    }
  }

  /** `pat` occurs in `s` starting at index `i`. */
  ghost predicate OccursAt(s: string, pat: string, i: int) {
    0 <= i && i + |pat| <= |s| && s[i..i + |pat|] == pat
  }

  /** `str::contains`: whether `pat` occurs somewhere in `s`, searching from the left. */
  function Contains(s: string, pat: string): bool
    decreases |s|
  {
    if |s| < |pat| then false
    else if s[..|pat|] == pat then true
    else Contains(s[1..], pat)
  }

  /** The search finds `pat` exactly when it occurs at some position. */
  lemma {:induction false} ContainsIff(s: string, pat: string)
    ensures Contains(s, pat) <==> exists i :: OccursAt(s, pat, i)
    decreases |s|
  {
    if |s| < |pat| {
      forall i ensures !OccursAt(s, pat, i) { }
    } else if s[..|pat|] == pat {
      assert OccursAt(s, pat, 0);
    } else {
      ContainsIff(s[1..], pat);
      if Contains(s[1..], pat) {
        var j :| OccursAt(s[1..], pat, j);
        assert s[j + 1..j + 1 + |pat|] == s[1..][j..j + |pat|];
        assert OccursAt(s, pat, j + 1);
      } else {
        forall i | OccursAt(s, pat, i) ensures false {
          if i > 0 {
            assert s[1..][i - 1..i - 1 + |pat|] == s[i..i + |pat|];
            assert OccursAt(s[1..], pat, i - 1);
          }
        }
      }
    }
  }
}
