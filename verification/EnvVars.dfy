/** A set of environment variables, and the array of C strings that it keeps for handing it on. */
module EnvVars {
  import opened Common

  const NUL: char := '\0'

  type EnvMap = map<string, string>

  /** What is left of a string when it is used as a C string. */
  function CStr(s: string): string {
    s[..IndexOf(s, NUL)]
  }

  /** getKeyValue; both are empty without an equals sign. */
  function KeyValue(s: string): (string, string) {
    var i := IndexOf(s, '=');
    if i == |s| then ("", "") else (s[..i], s[i + 1..])
  }

  predicate IsValidKey(key: string) {
    key != "" && '=' !in key
  }

  function Add(m: EnvMap, s: string): EnvMap {
    var (key, value) := KeyValue(s);
    if IsValidKey(key) then m[key := value] else m
  }

  /** fillEnvMap; a later entry replaces an earlier one. */
  function Fill(entries: seq<string>): EnvMap {
    if entries == [] then map[] else Add(Fill(entries[..|entries| - 1]), entries[|entries| - 1])
  }

  /** One string of envp, as a C string. */
  function Entry(key: string, value: string): string {
    CStr(key + "=" + value)
  }

  /** The keys of a map, each once. */
  ghost predicate IsListing(keys: seq<string>, m: EnvMap) {
    && (forall i :: 0 <= i < |keys| ==> keys[i] in m)
    && (forall i, j :: 0 <= i < j < |keys| ==> keys[i] != keys[j])
    && (forall key :: key in m ==> key in keys)
  }

  function Entries(keys: seq<string>, m: EnvMap): (entries: seq<string>)
    requires forall i :: 0 <= i < |keys| ==> keys[i] in m
    ensures |entries| == |keys| && forall i :: 0 <= i < |keys| ==> entries[i] == Entry(keys[i], m[keys[i]])
  {
    if keys == [] then []
    else Entries(keys[..|keys| - 1], m) + [Entry(keys[|keys| - 1], m[keys[|keys| - 1]])]
  }

  /** The array holds each variable once, and nothing else. */
  ghost predicate Encodes(entries: seq<string>, m: EnvMap) {
    exists keys :: IsListing(keys, m) && entries == Entries(keys, m)
  }

  predicate ValidKeys(m: EnvMap) {
    forall key :: key in m ==> IsValidKey(key)
  }

  predicate NulFree(m: EnvMap) {
    forall key :: key in m ==> NUL !in key && NUL !in m[key]
  }

  /** The keys listed so far, and those left. */
  ghost predicate PartlyListed(keys: seq<string>, left: set<string>, m: EnvMap) {
    && left <= m.Keys
    && (forall i :: 0 <= i < |keys| ==> keys[i] in m && keys[i] !in left)
    && (forall i, j :: 0 <= i < j < |keys| ==> keys[i] != keys[j])
    && (forall key :: key in m ==> key in left || key in keys)
  }

  lemma ListOneMore(keys: seq<string>, left: set<string>, m: EnvMap, key: string)
    requires PartlyListed(keys, left, m) && key in left
    ensures PartlyListed(keys + [key], left - {key}, m)
    ensures Entries(keys + [key], m) == Entries(keys, m) + [Entry(key, m[key])]
  {
    assert (keys + [key])[..|keys|] == keys;
    assert forall k :: k in keys || k == key ==> k in keys + [key];
  }

  // ----- reading back --------------------------------------------------------------------

  lemma SplitOfEntry(key: string, value: string)
    requires IsValidKey(key) && NUL !in key && NUL !in value
    ensures KeyValue(Entry(key, value)) == (key, value)
  {
    var s := key + "=" + value;
    var i := IndexOf(s, NUL);
    assert i == |s|;
    assert s[..i] == s;
    var j := IndexOf(s, '=');
    assert s[|key|] == '=';
    assert forall k :: 0 <= k < |key| ==> s[k] == key[k];
    assert forall k :: 0 <= k < j ==> s[..j][k] == s[k];
    assert j == |key|;
    assert s[..j] == key && s[j + 1..] == value;
  }

  function Restricted(m: EnvMap, keys: seq<string>): EnvMap {
    map key | key in m && key in keys :: m[key]
  }

  lemma {:induction false} FillOfEntries(keys: seq<string>, m: EnvMap)
    requires ValidKeys(m) && NulFree(m) && forall i :: 0 <= i < |keys| ==> keys[i] in m
    ensures Fill(Entries(keys, m)) == Restricted(m, keys)
  {
    if keys != [] {
      var n := |keys| - 1;
      var key, entries := keys[n], Entries(keys, m);
      FillOfEntries(keys[..n], m);
      SplitOfEntry(key, m[key]);
      assert entries[..n] == Entries(keys[..n], m);
      RestrictedToMore(m, keys[..n], key);
      assert keys == keys[..n] + [key];
    }
  }

  lemma RestrictedToMore(m: EnvMap, keys: seq<string>, key: string)
    requires key in m
    ensures Restricted(m, keys + [key]) == Restricted(m, keys)[key := m[key]]
  {
    assert forall k :: k in keys + [key] <==> k in keys || k == key;
  }

  lemma {:induction false} FillIsNulFree(entries: seq<string>)
    requires forall i :: 0 <= i < |entries| ==> NUL !in entries[i]
    ensures NulFree(Fill(entries)) && ValidKeys(Fill(entries))
  {
    if entries != [] {
      FillIsNulFree(entries[..|entries| - 1]);
    }
  }

  lemma RebuiltFromListing(keys: seq<string>, m: EnvMap)
    requires ValidKeys(m) && IsListing(keys, m)
    ensures Fill(Entries(keys, m)) == m <==> NulFree(m)
  {
    var entries := Entries(keys, m);
    FillIsNulFree(entries);
    if NulFree(m) {
      FillOfEntries(keys, m);
      AllRestricted(m, keys);
    }
  }

  lemma AllRestricted(m: EnvMap, keys: seq<string>)
    requires forall key :: key in m ==> key in keys
    ensures Restricted(m, keys) == m
  {
  }

  /** A new set of variables made from the array is equal exactly if no variable contains a NUL; equals
      signs in the values are no obstacle. */
  lemma RebuiltExactly(entries: seq<string>, m: EnvMap)
    requires ValidKeys(m) && Encodes(entries, m)
    ensures Fill(entries) == m <==> NulFree(m)
  {
    var keys :| IsListing(keys, m) && entries == Entries(keys, m);
    RebuiltFromListing(keys, m);
  }

  /** The last string that gives this key a value. */
  ghost predicate LastAt(entries: seq<string>, key: string, i: int) {
    && 0 <= i < |entries| && KeyValue(entries[i]).0 == key
    && forall j :: i < j < |entries| ==> KeyValue(entries[j]).0 != key
  }

  lemma {:induction false} LastIsTaken(entries: seq<string>, key: string, i: int)
    requires IsValidKey(key) && LastAt(entries, key, i)
    ensures key in Fill(entries) && Fill(entries)[key] == KeyValue(entries[i]).1
  {
    var n := |entries| - 1;
    if i < n {
      assert KeyValue(entries[n]).0 != key;
      LastIsTaken(entries[..n], key, i);
    }
  }

  lemma {:induction false} TakenFrom(entries: seq<string>, key: string) returns (i: int)
    requires key in Fill(entries)
    ensures IsValidKey(key) && LastAt(entries, key, i)
  {
    var n := |entries| - 1;
    if KeyValue(entries[n]).0 == key && IsValidKey(key) {
      i := n;
    } else {
      i := TakenFrom(entries[..n], key);
      assert KeyValue(entries[n]).0 != key;
      assert forall j :: 0 <= j < n ==> entries[..n][j] == entries[j];
    }
  }

  /** What is read from any array of strings: each valid key that is given a value, and the last one. */
  lemma FillTakesLast(entries: seq<string>, key: string)
    ensures key in Fill(entries) <==> IsValidKey(key) && exists i :: LastAt(entries, key, i)
    ensures forall i :: key in Fill(entries) && LastAt(entries, key, i) ==> Fill(entries)[key] == KeyValue(entries[i]).1
  {
    if key in Fill(entries) {
      var i := TakenFrom(entries, key);
    }
    forall i | IsValidKey(key) && LastAt(entries, key, i)
      ensures key in Fill(entries) && Fill(entries)[key] == KeyValue(entries[i]).1
    {
      LastIsTaken(entries, key, i);
    }
  }

  /** A string sets a variable exactly if it has an equals sign with something in front of it; and the first
      one ends the name. */
  lemma SetsExactly(m: EnvMap, key: string, value: string, s: string)
    ensures '=' !in key && key != "" ==> Add(m, key + "=" + value) == m[key := value]
    ensures '=' !in s || s[0] == '=' ==> Add(m, s) == m
  {
    var t := key + "=" + value;
    if '=' !in key {
      var i := IndexOf(t, '=');
      assert t[|key|] == '=';
      assert forall k :: 0 <= k < |key| ==> t[k] == key[k];
      assert forall k :: 0 <= k < i ==> t[..i][k] == t[k];
      assert t[..i] == key && t[i + 1..] == value;
    }
  }

  // ----- the object ----------------------------------------------------------------------

  class EnvVars {
    var envMap: EnvMap
    /** The array of getenvp, while there is one. */
    var envp: Option<seq<string>>

    ghost predicate Valid()
      reads this
    {
      ValidKeys(envMap) && (envp.Some? ==> Encodes(envp.value, envMap))
    }

    constructor Empty()
      ensures Valid() && envMap == map[] && envp == None
    {
      envMap, envp := map[], None;
    }

    constructor FromEnvp(strings: seq<string>)
      ensures Valid() && envMap == Fill(strings) && envp == None
    {
      envMap, envp := map[], None;
      new;
      var i := 0;
      while i < |strings|
        invariant 0 <= i <= |strings| && envp == None
        invariant envMap == Fill(strings[..i]) && ValidKeys(envMap)
      {
        assert strings[..i + 1][..i] == strings[..i];
        var (key, value) := KeyValue(strings[i]);
        if IsValidKey(key) {
          envMap := envMap[key := value];
        }
        i := i + 1;
      }
      assert strings[..i] == strings;
    }

    method DeleteEnvp()
      modifies this`envp
      ensures envp == None
    {
      envp := None;
    }

    /** The array encodes the variables as they are, built now or not. */
    method GetEnvp() returns (r: seq<string>)
      requires Valid()
      modifies this`envp
      ensures Valid() && envp == Some(r) && Encodes(r, envMap)
      ensures NulFree(envMap) ==> Fill(r) == envMap
      ensures old(envp).Some? ==> envp == old(envp)
    {
      if envp.None? {
        ghost var keys: seq<string> := [];
        var entries: seq<string> := [];
        var left := envMap.Keys;
        while left != {}
          invariant envp == None && PartlyListed(keys, left, envMap)
          invariant entries == Entries(keys, envMap)
          decreases left
        {
          var key :| key in left;
          ListOneMore(keys, left, envMap, key);
          entries := entries + [Entry(key, envMap[key])];
          keys := keys + [key];
          left := left - {key};
        }
        envp := Some(entries);
        assert IsListing(keys, envMap);
      }
      RebuiltExactly(envp.value, envMap);
      r := envp.value;
    }

    method GetValue(key: string, notFoundRetVal: string) returns (value: string)
      ensures value == if key in envMap then envMap[key] else notFoundRetVal
    {
      value := if key in envMap then envMap[key] else notFoundRetVal;
    }

    method RemoveVar(varName: string) returns (cc: bool)
      requires Valid()
      modifies this
      ensures Valid() && cc == (varName in old(envMap)) && envMap == old(envMap) - {varName}
      ensures !cc ==> envp == old(envp)
    {
      cc := false;
      if varName in envMap {
        cc := true;
        DeleteEnvp();
        envMap := envMap - {varName};
      }
    }

    method AddVar(name: string, value: string) returns (cc: bool)
      requires Valid()
      modifies this
      ensures Valid() && cc == (IsValidKey(name) && name !in old(envMap))
      ensures envMap == if cc then old(envMap)[name := value] else old(envMap)
      ensures !cc ==> envp == old(envp)
    {
      cc := false;
      if IsValidKey(name) && name !in envMap {
        cc := true;
        DeleteEnvp();
        envMap := envMap[name := value];
      }
    }

    method SetVar(key: string, value: string) returns (cc: bool)
      requires Valid()
      modifies this
      ensures Valid() && cc == IsValidKey(key)
      ensures envMap == if cc then old(envMap)[key := value] else old(envMap)
      ensures !cc ==> envp == old(envp)
    {
      cc := false;
      if IsValidKey(key) {
        cc := true;
        DeleteEnvp();
        envMap := envMap[key := value];
      }
    }

    /** The argument is used as a C string. */
    method SetVarFrom(keyValue: string) returns (cc: bool)
      requires Valid()
      modifies this
      ensures Valid() && envMap == Add(old(envMap), CStr(keyValue))
      ensures cc == IsValidKey(KeyValue(CStr(keyValue)).0)
    {
      var (key, value) := KeyValue(CStr(keyValue));
      cc := SetVar(key, value);
    }

    method UpdateVar(name: string, value: string) returns (cc: bool)
      requires Valid()
      modifies this
      ensures Valid() && cc == (name in old(envMap))
      ensures envMap == if cc then old(envMap)[name := value] else old(envMap)
      ensures !cc ==> envp == old(envp)
    {
      cc := false;
      if name in envMap {
        cc := true;
        DeleteEnvp();
        envMap := envMap[name := value];
      }
    }
  }
}
