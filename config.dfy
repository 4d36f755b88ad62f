/** The configuration client: `getconfigCoreAsync` folds the `AppSettings`
    list of the `/getconfig` response into a map, and `setconfigAsync`
    builds the new configuration from a `VAR=val` token or a JSON file and
    serialises it back into the list pushed to `/setconfig`. The two
    responses/files are inputs; JSON parsing is not modelled. */
module Config {
  import opened Base

  /** One `{ Name, Value }` entry of `AppSettings`. */
  datatype Setting = Setting(name: string, value: string)

  /** `x[s.Name] = s.Value` for each entry in turn: a later entry overwrites
      an earlier one with the same name. */
  function Unpacked(settings: seq<Setting>): map<string, string> {
    if settings == [] then map[]
    else
      var last := settings[|settings| - 1];
      Unpacked(settings[..|settings| - 1])[last.name := last.value]
  }

  /** `getconfigCoreAsync` after the response: the loop filling `x`. */
  method UnpackSettings(settings: seq<Setting>) returns (x: map<string, string>)
    ensures x == Unpacked(settings)
  {
    x := map[];
    var i := 0;
    while i < |settings|
      invariant 0 <= i <= |settings|
      invariant x == Unpacked(settings[..i])
    {
      var s := settings[i];
      assert settings[..i + 1][..i] == settings[..i];
      x := x[s.name := s.value];
      i := i + 1;
    }
    assert settings[..i] == settings;
  }

  /** A name is in the unpacked map exactly when some entry carries it. */
  lemma {:induction false} UnpackedKeys(settings: seq<Setting>)
    ensures forall k :: k in Unpacked(settings) <==> exists i :: 0 <= i < |settings| && settings[i].name == k
  {
    if settings != [] {
      var n := |settings| - 1;
      var init := settings[..n];
      UnpackedKeys(init);
      forall k ensures k in Unpacked(settings) <==> exists i :: 0 <= i < |settings| && settings[i].name == k {
        if k in Unpacked(init) {
          var i :| 0 <= i < |init| && init[i].name == k;
          assert settings[i].name == k;
        }
        if exists i :: 0 <= i < |settings| && settings[i].name == k {
          var i :| 0 <= i < |settings| && settings[i].name == k;
          if i < n {
            assert init[i].name == k;
          }
        }
      }
    }
  }

  /** A name maps to the value of the last entry that carries it. */
  lemma {:induction false} UnpackedLastWins(settings: seq<Setting>)
    ensures forall i :: 0 <= i < |settings| && IsLastOf(settings, i) ==>
      settings[i].name in Unpacked(settings) && Unpacked(settings)[settings[i].name] == settings[i].value
  {
    if settings != [] {
      var n := |settings| - 1;
      var init := settings[..n];
      UnpackedLastWins(init);
      forall i | 0 <= i < |settings| && IsLastOf(settings, i)
        ensures settings[i].name in Unpacked(settings)
        ensures Unpacked(settings)[settings[i].name] == settings[i].value
      {
        if i < n {
          assert settings[n].name != settings[i].name;
          assert init[i] == settings[i];
          assert IsLastOf(init, i);
        }
      }
    }
  }

  /** Entry `i` is the last one carrying its name. */
  predicate IsLastOf(settings: seq<Setting>, i: nat)
    requires i < |settings|
  {
    forall j :: i < j < |settings| ==> settings[j].name != settings[i].name
  }

  /** No name occurs twice. */
  predicate DistinctNames(settings: seq<Setting>) {
    forall i, j :: 0 <= i < j < |settings| ==> settings[i].name != settings[j].name
  }

  /** The `for (k of Object.keys(js))` loop that builds `rr.AppSettings`. The
      order of `Object.keys` is not modelled: keys are taken in any order.
      Unpacking the list gives back the map, and no name is repeated. */
  method Serialise(js: map<string, string>) returns (rr: seq<Setting>)
    ensures Unpacked(rr) == js
    ensures DistinctNames(rr)
    ensures |rr| == |js|
  {
    rr := [];
    var keys := js.Keys;
    while keys != {}
      invariant keys <= js.Keys
      invariant Unpacked(rr) == js - keys
      invariant DistinctNames(rr)
      invariant |rr| + |keys| == |js|
      decreases keys
    {
      var k :| k in keys;
      SerialiseStep(js, keys, rr, k);
      rr := rr + [Setting(k, js[k])];
      keys := keys - {k};
    }
    assert js - {} == js;
  }

  /** Appending a key not yet written keeps the list free of repeats and
      adds that key to what it unpacks to. */
  lemma SerialiseStep(js: map<string, string>, keys: set<string>, rr: seq<Setting>, k: string)
    requires keys <= js.Keys && k in keys
    requires Unpacked(rr) == js - keys && DistinctNames(rr)
    ensures Unpacked(rr + [Setting(k, js[k])]) == js - (keys - {k})
    ensures DistinctNames(rr + [Setting(k, js[k])])
  {
    var next := rr + [Setting(k, js[k])];
    UnpackedKeys(rr);
    forall i | 0 <= i < |rr| ensures rr[i].name != k {
      assert rr[i].name in Unpacked(rr);
    }
    assert next[..|rr|] == rr;
    assert (js - keys)[k := js[k]] == js - (keys - {k});
  }

  /** A `VAR=val` token. */
  datatype Assignment = Assignment(name: string, value: string)

  /** `\w`: an ASCII letter, digit or underscore. */
  predicate IsWordChar(c: char) {
    'a' <= c <= 'z' || 'A' <= c <= 'Z' || '0' <= c <= '9' || c == '_'
  }

  predicate IsWord(s: string) {
    forall i :: 0 <= i < |s| ==> IsWordChar(s[i])
  }

  /** The length of the longest prefix of word characters. */
  function WordPrefixLength(s: string): (k: nat)
    ensures k <= |s| && IsWord(s[..k])
    ensures k < |s| ==> !IsWordChar(s[k])
  {
    if s != [] && IsWordChar(s[0]) then
      var k := 1 + WordPrefixLength(s[1..]);
      assert s[..k] == [s[0]] + s[1..][..k - 1];
      k
    else 0
  }

  /** `/^(\w+)=(.*)$/.exec(arg)`: the word characters before the first `=`
      and everything after it, provided no line terminator follows. */
  function ParseAssignment(arg: string): (r: Option<Assignment>)
    ensures r.Some? ==> r.value.name != [] && IsWord(r.value.name)
                        && NoLineTerminator(r.value.value) && FormatAssignment(r.value) == arg
  {
    var k := WordPrefixLength(arg);
    if 0 < k < |arg| && arg[k] == '=' && NoLineTerminator(arg[k + 1..]) then
      assert arg == arg[..k] + "=" + arg[k + 1..];
      Some(Assignment(arg[..k], arg[k + 1..]))
    else None
  }

  /** Writing a token back out. */
  function FormatAssignment(a: Assignment): string {
    a.name + "=" + a.value
  }

  /** Every well-formed token is recognised, with its name and value. */
  lemma ParseFormatted(a: Assignment)
    requires a.name != [] && IsWord(a.name) && NoLineTerminator(a.value)
    ensures ParseAssignment(FormatAssignment(a)) == Some(a)
  {
    var s := FormatAssignment(a);
    var n := |a.name|;
    assert s[..n] == a.name && s[n] == '=' && s[n + 1..] == a.value;
    WordPrefixUpTo(s, n);
  }

  /** A word prefix that stops at a non-word character is the longest one. */
  lemma {:induction false} WordPrefixUpTo(s: string, n: nat)
    requires n < |s| && IsWord(s[..n]) && !IsWordChar(s[n])
    ensures WordPrefixLength(s) == n
  {
    if n > 0 {
      assert IsWordChar(s[..n][0]);
      assert s[1..][..n - 1] == s[..n][1..];
      WordPrefixUpTo(s[1..], n - 1);
    }
  }

  /** The token's effect on the fetched configuration: the literal value
      `null` deletes the key, any other value inserts or overwrites it. */
  function Apply(js: map<string, string>, a: Assignment): (r: map<string, string>)
    ensures a.value == "null" ==> a.name !in r
    ensures a.value != "null" ==> a.name in r && r[a.name] == a.value
    ensures forall k :: k != a.name ==> (k in r <==> k in js) && (k in r ==> r[k] == js[k])
  {
    if a.value == "null" then js - {a.name} else js[a.name := a.value]
  }

  /** Applying the same token twice is applying it once. */
  lemma ApplyIdempotent(js: map<string, string>, a: Assignment)
    ensures Apply(Apply(js, a), a) == Apply(js, a)
  {
  }

  /** Deleting a key that is not there changes nothing. */
  lemma DeleteAbsentIsNoOp(js: map<string, string>, name: string)
    requires name !in js
    ensures Apply(js, Assignment(name, "null")) == js
  {
  }

  /** What `setconfigAsync` does when it is given no argument, or what it
      pushes to `/setconfig` otherwise. */
  datatype SetOutcome = Usage(line: string) | Pushed(settings: seq<Setting>)

  const NeedArgument := "need JSON filename or VAR=val"

  /** The configuration `setconfigAsync` pushes for a truthy argument: a
      token is applied to the fetched settings; anything else names a JSON
      file whose object replaces the whole configuration. */
  function NewConfig(arg: string, remote: seq<Setting>, fileObject: map<string, string>)
    : map<string, string>
  {
    match ParseAssignment(arg)
    case Some(a) => Apply(Unpacked(remote), a)
    case None => fileObject
  }

  /** `setconfigAsync(args)`: `arg` is `args[0]`, `remote` the `AppSettings`
      of the `/getconfig` response, `fileObject` the parsed JSON file. */
  method SetConfig(arg: Option<string>, remote: seq<Setting>, fileObject: map<string, string>)
    returns (o: SetOutcome)
    ensures !Truthy(arg) ==> o == Usage(NeedArgument)
    ensures Truthy(arg) ==> (o.Pushed? && DistinctNames(o.settings)
                             && Unpacked(o.settings) == NewConfig(arg.value, remote, fileObject))
  {
    if !Truthy(arg) {
      return Usage(NeedArgument);
    }
    var m := ParseAssignment(arg.value);
    var js: map<string, string>;
    if m.Some? {
      js := UnpackSettings(remote);
      var a := m.value;
      if a.value == "null" {
        js := js - {a.name};
      } else {
        js := js[a.name := a.value];
      }
    } else {
      js := fileObject;
    }
    var rr := Serialise(js);
    return Pushed(rr);
  }

  /** A token changes only its own key; the file form replaces everything. */
  lemma NewConfigFrame(arg: string, remote: seq<Setting>, fileObject: map<string, string>)
    ensures ParseAssignment(arg).Some? ==>
      var name := ParseAssignment(arg).value.name;
      forall k :: k != name ==>
        (k in NewConfig(arg, remote, fileObject) <==> k in Unpacked(remote))
        && (k in Unpacked(remote) ==> NewConfig(arg, remote, fileObject)[k] == Unpacked(remote)[k])
    ensures ParseAssignment(arg).None? ==> NewConfig(arg, remote, fileObject) == fileObject
  {
  }

  /** `setenv FOO=1` against `FOO=0, BAR=2` pushes `FOO=1, BAR=2`. */
  lemma OverwriteExample(fileObject: map<string, string>)
    ensures NewConfig("FOO=1", [Setting("FOO", "0"), Setting("BAR", "2")], fileObject)
         == map["FOO" := "1", "BAR" := "2"]
  {
    ParseFormatted(Assignment("FOO", "1"));
    assert FormatAssignment(Assignment("FOO", "1")) == "FOO=1";
    UnpackTwo(Setting("FOO", "0"), Setting("BAR", "2"));
  }

  /** `setenv FOO=null` against `FOO=1, BAR=2` pushes `BAR=2`. */
  lemma DeleteExample(fileObject: map<string, string>)
    ensures NewConfig("FOO=null", [Setting("FOO", "1"), Setting("BAR", "2")], fileObject)
         == map["BAR" := "2"]
  {
    ParseFormatted(Assignment("FOO", "null"));
    assert FormatAssignment(Assignment("FOO", "null")) == "FOO=null";
    UnpackTwo(Setting("FOO", "1"), Setting("BAR", "2"));
    var u := map["FOO" := "1"]["BAR" := "2"];
    assert "FOO" != "BAR";
    assert u - {"FOO"} == map["BAR" := "2"];
  }

  lemma UnpackTwo(a: Setting, b: Setting)
    ensures Unpacked([a, b]) == map[a.name := a.value][b.name := b.value]
  {
    assert [a, b][..1] == [a];
    assert [a][..0] == [];
    assert Unpacked([a]) == map[][a.name := a.value];
  }
}
