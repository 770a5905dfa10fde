/** The registry of embedding providers, a map keyed by the text "name::model". */
module ProviderRegistry {
  import opened Results
  import opened Text

  datatype RegistryError = NameRequired | ModelRequired | BadDimension | NameMismatch | AlreadyRegistered | NotFound

  datatype Entry = Entry(name: string, dimension: int)

  function Normal(s: string): string {
    Trim(Lower(s))
  }

  /** providerRegistryKey, on names that Register and Resolve have normalised already. */
  function Key(name: string, model: string): string {
    Lower(Trim(name)) + "::" + Lower(Trim(model))
  }

  /** Register: why an entry is refused, if it is. */
  function Refusal(providers: map<string, Entry>, name: string, model: string, e: Entry): Option<RegistryError> {
    if Normal(name) == "" then Some(NameRequired)
    else if Normal(model) == "" then Some(ModelRequired)
    else if e.dimension <= 0 then Some(BadDimension)
    else if Normal(e.name) != Normal(name) then Some(NameMismatch)
    else if Key(Normal(name), Normal(model)) in providers then Some(AlreadyRegistered)
    else None
  }

  function Found(providers: map<string, Entry>, name: string, model: string): Result<Entry, RegistryError> {
    if Normal(name) == "" then Err(NameRequired)
    else if Normal(model) == "" then Err(ModelRequired)
    else if Key(Normal(name), Normal(model)) in providers then Ok(providers[Key(Normal(name), Normal(model))])
    else Err(NotFound)
  }

  class Registry {
    var providers: map<string, Entry>

    constructor ()
      ensures providers == map[]
    {
      providers := map[];
    }

    method Register(name: string, model: string, e: Entry) returns (fault: Option<RegistryError>)
      modifies this
      ensures fault == Refusal(old(providers), name, model, e)
      ensures providers == if fault.None? then old(providers)[Key(Normal(name), Normal(model)) := e] else old(providers)
    {
      hide Normal, Key;
      var name', model' := Normal(name), Normal(model);
      if name' == "" {
        return Some(NameRequired);
      }
      if model' == "" {
        return Some(ModelRequired);
      }
      if e.dimension <= 0 {
        return Some(BadDimension);
      }
      if Normal(e.name) != name' {
        return Some(NameMismatch);
      }
      var key := Key(name', model');
      if key in providers {
        return Some(AlreadyRegistered);
      }
      providers := providers[key := e];
      return None;
    }

    method Resolve(name: string, model: string) returns (r: Result<Entry, RegistryError>)
      ensures r == Found(providers, name, model)
    {
      hide Normal, Key;
      if Normal(name) == "" {
        return Err(NameRequired);
      }
      if Normal(model) == "" {
        return Err(ModelRequired);
      }
      var key := Key(Normal(name), Normal(model));
      if key !in providers {
        return Err(NotFound);
      }
      return Ok(providers[key]);
    }
  }

  // ---------- Keys ----------

  lemma KeyOfNormal(name: string, model: string)
    ensures Key(Normal(name), Normal(model)) == Joined(Normal(name), Normal(model))
  {
    TrimLowerIsNormal(name);
    TrimLowerIsNormal(model);
  }

  function Joined(name: string, model: string): string {
    name + "::" + model
  }

  /** A name or model as the registry uses it: lower case, trimmed, not empty. */
  predicate Normalised(s: string) {
    s != "" && Normal(s) == s
  }

  /** The longer name goes on after the shorter one and the separator, and not with white space. */
  predicate Begins(a: string, c: string) {
    |a| < |c| && HasPrefix(c + "::", a + "::") && !IsSpace((c + "::")[|a| + 2])
  }

  predicate Clash(a: string, c: string) {
    Begins(a, c) || Begins(c, a)
  }

  lemma JoinedIsSplit(name: string, model: string)
    ensures |Joined(name, model)| == |name| + 2 + |model|
    ensures Joined(name, model)[..|name| + 2] == name + "::" && Joined(name, model)[|name| + 2..] == model
  {
  }

  lemma ShorterBegins(a: string, b: string, c: string, d: string)
    requires Joined(a, b) == Joined(c, d) && |a| <= |c|
    ensures HasPrefix(c + "::", a + "::")
    ensures |a| == |c| ==> a == c && b == d
  {
    hide Joined;
    JoinedIsSplit(a, b);
    JoinedIsSplit(c, d);
    var s := Joined(a, b);
    assert s[..|c| + 2][..|a| + 2] == s[..|a| + 2];
    assert (a + "::")[..|a|] == a && (c + "::")[..|c|] == c;
  }

  lemma NormalisedShape(s: string)
    requires Normalised(s)
    ensures Trimmed(s) && Lower(s) == s
  {
    hide Lower, Trim;
    TrimLowerIsNormal(s);
  }

  lemma ShapeNormalised(s: string)
    requires s != "" && Trimmed(s) && Lower(s) == s
    ensures Normalised(s)
  {
    hide Lower, Trim;
  }

  // A shared key: the longer name goes on where the model of the shorter one begins.
  lemma SharedKeyBegins(a: string, b: string, c: string, d: string)
    requires Normalised(b) && Joined(a, b) == Joined(c, d) && |a| < |c|
    ensures Begins(a, c)
  {
    hide Joined, Normalised;
    ShorterBegins(a, b, c, d);
    NormalisedShape(b);
    assert b != "" by { NormalisedNotEmpty(b); }
    JoinedIsSplit(a, b);
    JoinedIsSplit(c, d);
    var s := Joined(a, b);
    assert b[0] == s[|a| + 2];
    assert s[..|c| + 2][|a| + 2] == s[|a| + 2];
  }

  lemma NormalisedNotEmpty(s: string)
    requires Normalised(s)
    ensures s != ""
  {
  }

  lemma Extended(a: string, c: string) returns (b: string)
    requires Normalised(c) && Begins(a, c)
    ensures Normalised(b) && Normalised("m") && Joined(a, b) == Joined(c, "m")
  {
    hide Normalised;
    var rest := (c + "::")[|a| + 2..];
    assert c + "::" == (a + "::") + rest;
    assert c + "::" + "m" == a + "::" + (rest + "m");
    NormalisedShape(c);
    assert Lower(rest + "m") == rest + "m" by {
      forall i | 0 <= i < |rest|
        ensures LowerChar(rest[i]) == rest[i]
      {
        assert rest[i] == (c + "::")[i + |a| + 2];
        assert Lower(c) == c;
        if i + |a| + 2 < |c| {
          assert Lower(c)[i + |a| + 2] == LowerChar(c[i + |a| + 2]);
        }
      }
    }
    assert rest[0] == (c + "::")[|a| + 2];
    ShapeNormalised(rest + "m");
    b := rest + "m";
    assert Lower("m") == "m";
    ShapeNormalised("m");
  }

  /** Two different provider names share a key, for some models, exactly when one begins the other in this way. */
  lemma NamesClashIff(a: string, c: string)
    requires Normalised(a) && Normalised(c) && a != c
    ensures (exists b, d :: Normalised(b) && Normalised(d) && Joined(a, b) == Joined(c, d)) <==> Clash(a, c)
  {
    hide Joined, Normalised, Begins;
    forall b, d | Normalised(b) && Normalised(d) && Joined(a, b) == Joined(c, d)
      ensures Clash(a, c)
    {
      SharedKeyClashes(a, b, c, d);
    }
    if Begins(a, c) {
      var b := Extended(a, c);
      assert Normalised(b) && Normalised("m") && Joined(a, b) == Joined(c, "m");
    } else if Begins(c, a) {
      var d := Extended(c, a);
      assert Normalised("m") && Normalised(d) && Joined(a, "m") == Joined(c, d);
    }
  }

  lemma SharedKeyClashes(a: string, b: string, c: string, d: string)
    requires Normalised(b) && Normalised(d) && Joined(a, b) == Joined(c, d)
    ensures Clash(a, c) || (a == c && b == d)
  {
    hide Joined, Normalised, Begins;
    if |a| < |c| {
      SharedKeyBegins(a, b, c, d);
    } else if |c| < |a| {
      SharedKeyBegins(c, d, a, b);
    } else {
      ShorterBegins(a, b, c, d);
    }
  }

  /**
    After a registration a lookup finds the new entry for exactly the same name and model,
    in any case and with any surrounding space, and every other pair as before, provided
    the two names do not clash.
   */
  lemma RegisteredIsFound(providers: map<string, Entry>, name: string, model: string, e: Entry, name': string, model': string)
    requires Refusal(providers, name, model, e).None?
    requires !Clash(Normal(name), Normal(name'))
    ensures var after := providers[Key(Normal(name), Normal(model)) := e];
            Found(after, name', model') ==
              if Normal(name) == Normal(name') && Normal(model) == Normal(model') then Ok(e) else Found(providers, name', model')
  {
    hide Key, Joined, Clash, Trim, Lower;
    KeyOfNormal(name, model);
    KeyOfNormal(name', model');
    TrimLowerIsNormal(model);
    TrimLowerIsNormal(model');
    if Normal(model') != "" && Joined(Normal(name), Normal(model)) == Joined(Normal(name'), Normal(model')) {
      assert Normalised(Normal(model)) && Normalised(Normal(model')) by {
        NormalTwice(model);
        NormalTwice(model');
      }
      SharedKeyClashes(Normal(name), Normal(model), Normal(name'), Normal(model'));
    }
  }

  lemma NormalTwice(s: string)
    ensures Normal(Normal(s)) == Normal(s)
  {
    hide Trim, Lower;
    TrimLowerIsNormal(s);
  }

  /** Counterexample: after ("x", ":m") is registered, ("x:", "m") is refused, and a lookup of it finds the provider of "x". */
  lemma SecondProviderRefused(e: Entry, f: Entry)
    requires Normal(e.name) == "x" && e.dimension > 0 && Normal(f.name) == "x:" && f.dimension > 0
    ensures Refusal(map[], "x", ":m", e) == None
    ensures var after := map[Key(Normal("x"), Normal(":m")) := e];
            Refusal(after, "x:", "m", f) == Some(AlreadyRegistered) && Found(after, "x:", "m") == Ok(e)
  {
    hide Key, Trim, Lower;
    assert Normal("x") == "x" && Normal("x:") == "x:" && Normal(":m") == ":m" && Normal("m") == "m" by { SomeNormal(); }
    KeyOfNormal("x", ":m");
    KeyOfNormal("x:", "m");
    assert "x" + "::" + ":m" == "x:" + "::" + "m";
  }

  lemma SomeNormal()
    ensures Normal("x") == "x" && Normal("x:") == "x:" && Normal(":m") == ":m" && Normal("m") == "m"
  {
    assert Lower("x") == "x" && Lower("x:") == "x:" && Lower(":m") == ":m" && Lower("m") == "m";
    assert Trimmed("x") && Trimmed("x:") && Trimmed(":m") && Trimmed("m");
  }

  /** "x" and "x:: y" do not clash: a model would have to start with white space. */
  lemma SpacedNamesDoNotClash()
    ensures Normalised("x") && Normalised("x:: y") && !Clash("x", "x:: y")
  {
    assert Lower("x") == "x" && Lower("x:: y") == "x:: y";
    assert Trimmed("x") && Trimmed("x:: y");
    assert ("x:: y" + "::")[3] == ' ';
  }

  /**
    An entry is taken exactly when name and model are not blank, its dimension is positive,
    it goes by that name, and nothing is found under name and model yet; in a new registry
    nothing is found.
   */
  lemma RegisterMeaning(providers: map<string, Entry>, name: string, model: string, e: Entry)
    ensures Refusal(providers, name, model, e).None? <==>
              && Trim(name) != "" && Trim(model) != "" && e.dimension > 0 && Lower(Trim(e.name)) == Lower(Trim(name))
              && Found(providers, name, model).Err?
    ensures Found(map[], name, model).Err?
  {
    hide Trim, Lower, Key;
    TrimCommutesWithCase(name);
    TrimCommutesWithCase(model);
    TrimCommutesWithCase(e.name);
    LoweredEmpty(Trim(name));
    LoweredEmpty(Trim(model));
  }

  lemma LoweredEmpty(s: string)
    ensures Lower(s) == "" <==> s == ""
  {
  }
}
