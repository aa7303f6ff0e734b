/** How the action reads its inputs from the environment (entrypoint.py,
    get_input and the two flags of main). */
module Inputs {
  import opened Text

  /** The process environment. */
  type Env = map<string, string>

  /** `os.environ.get(key)` as an `or` chain sees it: an absent variable and an
      empty one are both falsy, so both read as "". */
  function Lookup(env: Env, key: string): (v: string)
    ensures v != "" ==> key in env && v == env[key]
    ensures key in env && env[key] != "" ==> v == env[key]
    ensures key !in env ==> v == ""
  {
    if key in env then env[key] else ""
  }

  /** `os.environ.get(key, default)`: the default replaces an absent variable
      only; an empty one is kept. */
  function EnvGet(env: Env, key: string, default: string): (v: string)
    ensures key in env ==> v == env[key]
    ensures key !in env ==> v == default
  {
    if key in env then env[key] else default
  }

  /** The first variable tried: "INPUT_" and the upper-cased name with every
      "-" turned into "_". */
  function UnderscoreKey(name: string): (key: string)
    ensures |key| == 6 + |name| && key[..6] == "INPUT_"
  {
    "INPUT_" + Replace(Upper(name), '-', '_')
  }

  /** The second variable tried: "INPUT_" and the upper-cased name with every
      "_" turned into "-". */
  function HyphenKey(name: string): (key: string)
    ensures |key| == 6 + |name| && key[..6] == "INPUT_"
  {
    "INPUT_" + Replace(Upper(name), '_', '-')
  }

  /** After "INPUT_", both variable names are the name upper-cased letter by
      letter; the first turns each "-" into "_", the second each "_" into "-". */
  lemma KeyCharacters(name: string, k: nat)
    requires k < |name|
    ensures UnderscoreKey(name)[6 + k] == if UpperChar(name[k]) == '-' then '_' else UpperChar(name[k])
    ensures HyphenKey(name)[6 + k] == if UpperChar(name[k]) == '_' then '-' else UpperChar(name[k])
  {
    assert UnderscoreKey(name)[6 + k] == Replace(Upper(name), '-', '_')[k];
    assert HyphenKey(name)[6 + k] == Replace(Upper(name), '_', '-')[k];
  }

  /** get_input(name, default): the first non-empty of the two variables, or
      else the default, and whichever is chosen is stripped afterwards. */
  function GetInput(env: Env, name: string, default: string): (r: string)
    ensures IsStripped(r)
    ensures Lookup(env, UnderscoreKey(name)) != "" ==> r == Strip(env[UnderscoreKey(name)])
    ensures Lookup(env, UnderscoreKey(name)) == "" && Lookup(env, HyphenKey(name)) != "" ==>
              r == Strip(env[HyphenKey(name)])
    ensures Lookup(env, UnderscoreKey(name)) == "" && Lookup(env, HyphenKey(name)) == "" ==>
              r == Strip(default)
  {
    var viaUnderscore := Lookup(env, UnderscoreKey(name));
    var viaHyphen := Lookup(env, HyphenKey(name));
    Strip(if viaUnderscore != "" then viaUnderscore
          else if viaHyphen != "" then viaHyphen
          else default)
  }

  /** A missing input reads as its default when the default is stripped. */
  lemma InputDefault(env: Env, name: string, default: string)
    requires IsStripped(default)
    ensures Lookup(env, UnderscoreKey(name)) == "" && Lookup(env, HyphenKey(name)) == "" ==>
              GetInput(env, name, default) == default
  {
    StripStripped(default);
  }

  /** A missing "chart-folder" reads as "chart". */
  lemma ChartFolderDefault(env: Env)
    ensures Lookup(env, UnderscoreKey("chart-folder")) == "" && Lookup(env, HyphenKey("chart-folder")) == "" ==>
              GetInput(env, "chart-folder", "chart") == "chart"
  {
    InputDefault(env, "chart-folder", "chart");
  }

  /** A missing "force" leaves the flag unset. */
  lemma ForceDefault(env: Env)
    ensures Lookup(env, UnderscoreKey("force")) == "" && Lookup(env, HyphenKey("force")) == "" ==>
              !Flag(GetInput(env, "force", "false"))
  {
    InputDefault(env, "force", "false");
    FalseIsUnset();
  }

  /** The value is stripped only after it has been chosen: a variable that
      holds nothing but whitespace is non-empty, so it wins, and the input
      reads as "" even when a non-empty default is given. */
  lemma BlankInputHidesDefault(env: Env, name: string, default: string)
    requires UnderscoreKey(name) in env
    requires env[UnderscoreKey(name)] != "" && IsBlank(env[UnderscoreKey(name)])
    ensures GetInput(env, name, default) == ""
  {
    StripEmptyIffBlank(env[UnderscoreKey(name)]);
  }

  /** An input reads as "" exactly when the chosen value is blank; in
      particular a missing input with an empty default reads as "". */
  lemma GetInputEmptyIff(env: Env, name: string, default: string)
    ensures GetInput(env, name, default) == "" <==>
      IsBlank(if Lookup(env, UnderscoreKey(name)) != "" then Lookup(env, UnderscoreKey(name))
              else if Lookup(env, HyphenKey(name)) != "" then Lookup(env, HyphenKey(name))
              else default)
  {
    var viaUnderscore := Lookup(env, UnderscoreKey(name));
    var viaHyphen := Lookup(env, HyphenKey(name));
    StripEmptyIffBlank(if viaUnderscore != "" then viaUnderscore
                       else if viaHyphen != "" then viaHyphen
                       else default);
  }

  /** The two variable names differ only where the name has "-" or "_"; for a
      name with neither they coincide. */
  lemma KeysAgreeOnPlainNames(name: string)
    requires '-' !in name && '_' !in name
    ensures UnderscoreKey(name) == HyphenKey(name)
  {
    var u, h := Replace(Upper(name), '-', '_'), Replace(Upper(name), '_', '-');
    forall k | 0 <= k < |name| ensures u[k] == h[k] {
      assert name[k] != '-' && name[k] != '_';
    }
    assert u == h;
  }

  /** The first variable name never holds a "-"; its letters are upper case. */
  lemma UnderscoreKeyShape(name: string)
    ensures '-' !in UnderscoreKey(name)
    ensures forall k :: 0 <= k < |UnderscoreKey(name)| ==> !('a' <= UnderscoreKey(name)[k] <= 'z')
  {
    var key := UnderscoreKey(name);
    forall k | 0 <= k < |key| ensures key[k] != '-' && !('a' <= key[k] <= 'z') {
      if k >= 6 {
        assert key[k] == Replace(Upper(name), '-', '_')[k - 6];
      }
    }
  }

  /** A boolean input: true exactly when the lower-cased value is "true".
      The value is the input as GetInput returns it, already stripped. */
  predicate Flag(value: string) {
    Lower(value) == "true"
  }

  /** The default "false" of the two flags leaves them unset. */
  lemma FalseIsUnset()
    ensures !Flag("false")
  {
    assert Lower("false")[0] == 'f';
  }

  /** The flags are case-insensitive and, once the input is stripped, accept
      nothing but the four letters of "true": no other spelling. A variable
      "  TRUE " sets the flag, since GetInput strips it first. */
  lemma FlagIff(value: string)
    ensures Flag(value) <==>
      |value| == 4 && value[0] in "tT" && value[1] in "rR" && value[2] in "uU" && value[3] in "eE"
  {
    if |value| == 4 {
      var low := Lower(value);
      assert low == "true" <==> low[0] == 't' && low[1] == 'r' && low[2] == 'u' && low[3] == 'e';
    }
  }

  // ---------------------------------------------------------------------
  // The examples of the action's own tests

  lemma RegistryUrlKey()
    ensures UnderscoreKey("registry-url") == "INPUT_REGISTRY_URL"
  {
  }

  lemma AccessTokenKey()
    ensures UnderscoreKey("access-token") == "INPUT_ACCESS_TOKEN"
  {
  }

  lemma ReadsUnderscoreVariable()
    ensures GetInput(map["INPUT_REGISTRY_URL" := "oci://registry.example.com"], "registry-url", "")
            == "oci://registry.example.com"
  {
    RegistryUrlKey();
    StripStripped("oci://registry.example.com");
  }

  lemma MissingInputGivesDefault()
    ensures GetInput(map[], "chart-folder", "chart") == "chart"
  {
    var env: Env := map[];
    var name := "chart-folder";
    assert Lookup(env, UnderscoreKey(name)) == "" && Lookup(env, HyphenKey(name)) == "";
    StripStripped("chart");
  }

  lemma InputIsStripped()
    ensures GetInput(map["INPUT_ACCESS_TOKEN" := "  token123  "], "access-token", "") == "token123"
  {
    AccessTokenKey();
    assert "  token123  " == "  " + "token123" + "  ";
    StripPadded("  ", "token123", "  ");
  }
}
