/** HTTP headers as the gateway handles them. An inbound or upstream `HeaderMap` is the
    sequence of its (name, value) entries in iteration order, so a name may repeat; a
    header map the gateway builds with `insert` is a `map`, because `insert` replaces
    every earlier value of that name. Header names are lower-case strings, as
    `HeaderName` stores them; a header value is written as the text of its bytes. */
module Http {
  import opened Wrappers

  newtype byte = x: int | 0 <= x < 256
  type Bytes = seq<byte>

  /** `StatusCode`: every status the HTTP client reports lies in 100..999, so
      `StatusCode::from_u16` accepts it. */
  type StatusCode = s: int | 100 <= s < 1000 witness 200

  datatype Header = Header(name: string, value: string)
  type HeaderList = seq<Header>

  /** The validity rules of the `http` crate, which lie outside the gateway:
      - `isVisibleAscii(v)`: `HeaderValue::to_str` accepts the value;
      - `isValidValue(v)`: `HeaderValue::from_str` / `from_bytes` accept the text;
      - `isValidName(n)`: `HeaderName::from_bytes` accepts the name. */
  datatype HeaderRules = HeaderRules(
    isVisibleAscii: string -> bool,
    isValidValue: string -> bool,
    isValidName: string -> bool)

  const ContentType := "content-type"
  const Authorization := "authorization"
  const ApplicationJson := "application/json"

  /** `HeaderMap::get`: the first value stored under `name`. */
  function GetFirst(hs: HeaderList, name: string): Option<string>
    decreases |hs|
  {
    if hs == [] then None
    else if hs[0].name == name then Some(hs[0].value)
    else GetFirst(hs[1..], name)
  }

  /** `HeaderMap::get` finds the earliest entry with that name, and nothing when no
      entry has it. */
  lemma {:induction false} GetFirstSpec(hs: HeaderList, name: string)
    ensures GetFirst(hs, name).None? <==> forall i :: 0 <= i < |hs| ==> hs[i].name != name
    ensures GetFirst(hs, name).Some? ==>
              exists i :: 0 <= i < |hs| && hs[i] == Header(name, GetFirst(hs, name).value)
                          && forall j :: 0 <= j < i ==> hs[j].name != name
    decreases |hs|
  {
    if hs != [] && hs[0].name != name {
      GetFirstSpec(hs[1..], name);
      if GetFirst(hs, name).Some? {
        var i :| 0 <= i < |hs[1..]| && hs[1..][i] == Header(name, GetFirst(hs, name).value)
                 && forall j :: 0 <= j < i ==> hs[1..][j].name != name;
        assert hs[i + 1] == Header(name, GetFirst(hs, name).value);
        assert forall j :: 0 <= j < i + 1 ==> hs[j].name != name by {
          forall j | 0 <= j < i + 1 ensures hs[j].name != name {
            if j > 0 { assert hs[j] == hs[1..][j - 1]; }
          }
        }
      } else {
        forall i | 0 <= i < |hs| ensures hs[i].name != name {
          if i > 0 { assert hs[i] == hs[1..][i - 1]; }
        }
      }
    }
  }

  /** `HeaderValue::to_str`: the text of the value when it is visible ASCII. */
  function ToStr(rules: HeaderRules, v: string): Option<string> {
    if rules.isVisibleAscii(v) then Some(v) else None
  }

  /** `headers.get(name).and_then(|h| h.to_str().ok())`: only the first value is
      looked at, so a later valid value under the same name is never used. */
  function GetStr(hs: HeaderList, name: string, rules: HeaderRules): (r: Option<string>)
    ensures r.Some? <==> GetFirst(hs, name).Some? && rules.isVisibleAscii(GetFirst(hs, name).value)
    ensures r.Some? ==> r.value == GetFirst(hs, name).value
  {
    match GetFirst(hs, name)
    case None => None
    case Some(v) => ToStr(rules, v)
  }

  /** The value the last entry named `name` carries. */
  function LastValueOf(hs: HeaderList, name: string): Option<string>
    decreases |hs|
  {
    if hs == [] then None
    else if hs[|hs| - 1].name == name then Some(hs[|hs| - 1].value)
    else LastValueOf(hs[..|hs| - 1], name)
  }

  /** `LastValueOf` finds the latest entry with that name, and nothing when no entry
      has it. */
  lemma {:induction false} LastValueOfSpec(hs: HeaderList, name: string)
    ensures LastValueOf(hs, name).None? <==> forall i :: 0 <= i < |hs| ==> hs[i].name != name
    ensures LastValueOf(hs, name).Some? ==>
              exists i :: 0 <= i < |hs| && hs[i] == Header(name, LastValueOf(hs, name).value)
                          && forall j :: i < j < |hs| ==> hs[j].name != name
    decreases |hs|
  {
    if hs != [] && hs[|hs| - 1].name != name {
      var init := hs[..|hs| - 1];
      LastValueOfSpec(init, name);
      if LastValueOf(hs, name).Some? {
        var i :| 0 <= i < |init| && init[i] == Header(name, LastValueOf(hs, name).value)
                 && forall j :: i < j < |init| ==> init[j].name != name;
        assert hs[i] == init[i];
        assert forall j :: i < j < |hs| ==> hs[j].name != name by {
          forall j | i < j < |hs| ensures hs[j].name != name {
            if j < |hs| - 1 { assert hs[j] == init[j]; }
          }
        }
      } else {
        forall i | 0 <= i < |hs| ensures hs[i].name != name {
          if i < |hs| - 1 { assert hs[i] == init[i]; }
        }
      }
    }
  }

  /** The map obtained from `m` by `insert`ing every entry of `hs` in order. */
  function InsertAll(m: map<string, string>, hs: HeaderList): map<string, string>
    decreases |hs|
  {
    if hs == [] then m
    else InsertAll(m, hs[..|hs| - 1])[hs[|hs| - 1].name := hs[|hs| - 1].value]
  }

  /** Inserting in order means the last value for a name wins, and a name of `m` that no
      entry carries keeps its value. */
  lemma {:induction false} InsertAllLastWins(m: map<string, string>, hs: HeaderList, name: string)
    ensures name in InsertAll(m, hs) <==> LastValueOf(hs, name).Some? || name in m
    ensures LastValueOf(hs, name).Some? ==> InsertAll(m, hs)[name] == LastValueOf(hs, name).value
    ensures LastValueOf(hs, name).None? && name in m ==> InsertAll(m, hs)[name] == m[name]
    decreases |hs|
  {
    if hs != [] {
      InsertAllLastWins(m, hs[..|hs| - 1], name);
    }
  }

  /** The names that occur in a header list. */
  function NameSet(hs: HeaderList): set<string> {
    set i | 0 <= i < |hs| :: hs[i].name
  }

  /** A header list holds exactly the entries of `m`, each name once. */
  ghost predicate ListsMap(hs: HeaderList, m: map<string, string>) {
    && NameSet(hs) == m.Keys
    && (forall i :: 0 <= i < |hs| ==> hs[i].name in m && hs[i].value == m[hs[i].name])
    && (forall i, j :: 0 <= i < j < |hs| ==> hs[i].name != hs[j].name)
  }
}
