/** The request body as Python sees it after `request.get_json()`, and the few Python
    operations the handler applies to it: truthiness (`not data`), membership (`'images' in data`),
    lookup (`data['images']`, `data.get('date_text', ...)`), `len` and iteration.
    Each operation that raises `TypeError` on some kinds of value returns `None` for them. */
module Json {
  import opened Options

  /** A JSON value. An object keeps its members as written in the document, duplicates
      included; `Keys` and `Lookup` give them the meaning of the Python dict that `json` builds.
      A number is the value `json` produced for it, as a decimal mantissa and exponent
      (`m × 10^e`): an integer literal exactly, any other literal as the finite float it rounds
      to, so a literal that underflows (`1e-400`, `-1e-400`) arrives as `JNum(0, 0)`.
      `NaN`, `Infinity` and `-Infinity`, which Python's `json` also accepts, and a literal that
      overflows to an infinity (`1e400`), are `JNonFinite`. */
  datatype Json =
    | JNull
    | JBool(b: bool)
    | JNum(mantissa: int, exponent: int)
    | JNonFinite(literal: string)
    | JStr(s: string)
    | JArr(items: seq<Json>)
    | JObj(members: seq<(string, Json)>)

  /** Python truthiness: `None`, `False`, zero, and empty strings, lists and dicts are false;
      a NaN or an infinity is true. */
  predicate Truthy(j: Json) {
    match j
    case JNull => false
    case JBool(b) => b
    case JNum(m, _) => m != 0
    case JNonFinite(_) => true
    case JStr(s) => s != []
    case JArr(items) => items != []
    case JObj(members) => members != []
  }

  /** The dict's value for `key`: a later duplicate member overrides an earlier one. */
  function Lookup(members: seq<(string, Json)>, key: string): (r: Option<Json>)
    ensures r.Some? <==> exists k :: 0 <= k < |members| && members[k].0 == key
    ensures r.Some? ==>
      exists k :: 0 <= k < |members| && members[k] == (key, r.value)
                  && forall j :: k < j < |members| ==> members[j].0 != key
  {
    if members == [] then None
    else if members[|members| - 1].0 == key then Some(members[|members| - 1].1)
    else Lookup(members[..|members| - 1], key)
  }

  /** The dict's keys in iteration order: each distinct name once, where it first occurs. */
  function Keys(members: seq<(string, Json)>): (ks: seq<string>)
    ensures forall key :: key in ks <==> exists k :: 0 <= k < |members| && members[k].0 == key
    ensures forall i, j :: 0 <= i < j < |ks| ==> ks[i] != ks[j]
    ensures |ks| <= |members|
  {
    if members == [] then []
    else
      var ks := Keys(members[..|members| - 1]);
      var key := members[|members| - 1].0;
      if key in ks then ks else ks + [key]
  }

  /** Inserting members never reorders the keys already seen: the keys of any prefix of the
      members are a prefix of the keys of all of them. With the membership clause of `Keys`,
      this places every name where it first occurs. */
  lemma {:induction false} KeysOfPrefix(members: seq<(string, Json)>, n: nat)
    requires n <= |members|
    ensures Keys(members[..n]) <= Keys(members)
    decreases |members|
  {
    if n < |members| {
      var init := members[..|members| - 1];
      assert init[..n] == members[..n];
      KeysOfPrefix(init, n);
      assert Keys(init) <= Keys(members);
    } else {
      assert members[..n] == members;
    }
  }

  /** Python's `needle in s` for strings: `needle` occurs at some offset of `s`. */
  predicate IsSubstring(needle: string, s: string) {
    needle <= s || (s != [] && IsSubstring(needle, s[1..]))
  }

  /** `needle in container`: a key of a dict, an element of a list, a substring of a string;
      `None` where Python raises (`None`, booleans and numbers are not containers). */
  function Contains(container: Json, needle: string): Option<bool> {
    match container
    case JObj(members) => Some(Lookup(members, needle).Some?)
    case JArr(items) => Some(JStr(needle) in items)
    case JStr(s) => Some(IsSubstring(needle, s))
    case _ => None
  }

  /** `len(j)`: `None` where Python raises. */
  function Length(j: Json): Option<nat> {
    match j
    case JStr(s) => Some(|s|)
    case JArr(items) => Some(|items|)
    case JObj(members) => Some(|Keys(members)|)
    case _ => None
  }

  /** What `for x in j` yields: the characters of a string (as one-character strings),
      the items of a list, the keys of a dict. */
  function Elements(j: Json): (xs: seq<Json>)
    requires Length(j).Some?
    ensures |xs| == Length(j).value
    ensures j.JArr? ==> xs == j.items
    ensures j.JStr? ==> forall k :: 0 <= k < |xs| ==> xs[k] == JStr([j.s[k]])
    ensures j.JObj? ==> forall k :: 0 <= k < |xs| ==> xs[k] == JStr(Keys(j.members)[k])
  {
    match j
    case JStr(s) => seq(|s|, k requires 0 <= k < |s| => JStr([s[k]]))
    case JArr(items) => items
    case JObj(members) =>
      var ks := Keys(members);
      seq(|ks|, k requires 0 <= k < |ks| => JStr(ks[k]))
  }

  /** A key is in the dict exactly when it appears among the dict's keys. */
  lemma LookupAgreesWithKeys(members: seq<(string, Json)>, key: string)
    ensures Lookup(members, key).Some? <==> key in Keys(members)
  {
  }

}
