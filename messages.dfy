/**
 * The server-side message catalogue helper: picking a locale table,
 * sniffing the locale from request headers, and looking up a dotted key
 * with a fallback to Hungarian and `{name}` placeholder substitution.
 */
module Messages {
  import opened JsValues

  const DefaultLocale := "hu"

  /** `getLocaleObj`: the requested locale's table when it is truthy, else
      the default one. */
  function GetLocaleObj(catalogue: map<string, JsValue>, locale: string): (r: JsValue)
    ensures Truthy(Get(catalogue, locale)) ==> r == catalogue[locale]
    ensures !Truthy(Get(catalogue, locale)) ==> r == Get(catalogue, DefaultLocale)
  {
    if Truthy(Get(catalogue, locale)) then catalogue[locale] else Get(catalogue, DefaultLocale)
  }

  // ---------------------------------------------------------------------
  // Locale sniffing
  // ---------------------------------------------------------------------

  /** `headers[name]` read with `||`: a missing header is the empty string. */
  function Header(headers: map<string, string>, name: string): string
  {
    if name in headers then headers[name] else ""
  }

  /** The position of the first ASCII letter at or after `from`, if any. */
  function FirstLetter(s: string, from: nat): (r: Option<nat>)
    requires from <= |s|
    ensures r.None? ==> forall i :: from <= i < |s| ==> !IsLetter(s[i])
    ensures r.Some? ==> from <= r.value < |s| && IsLetter(s[r.value]) &&
                        forall i :: from <= i < r.value ==> !IsLetter(s[i])
    decreases |s| - from
  {
    if from == |s| then None
    else if IsLetter(s[from]) then Some(from)
    else FirstLetter(s, from + 1)
  }

  /** The first two characters of the first match of
      `[a-zA-Z]{1,8}(?:-[a-zA-Z]{1,8})?` in `s`. The match starts at the
      first letter; its second character is the next letter, or a hyphen
      followed by a letter, or there is none. */
  function TagPrefix(s: string, i: nat): string
    requires i < |s| && IsLetter(s[i])
  {
    if i + 1 < |s| && IsLetter(s[i + 1]) then s[i..i + 2]
    else if i + 2 < |s| && s[i + 1] == '-' && IsLetter(s[i + 2]) then s[i..i + 2]
    else s[i..i + 1]
  }

  /** `detectLocale`: Accept-Language, else Accept, else nothing; no letter
      at all gives the fallback. */
  function DetectLocale(headers: map<string, string>, fallback: string): (r: string)
    ensures var al := if Header(headers, "accept-language") != "" then Header(headers, "accept-language")
                      else Header(headers, "accept");
            && ((forall i :: 0 <= i < |al| ==> !IsLetter(al[i])) ==> r == fallback)
            && ((exists i :: 0 <= i < |al| && IsLetter(al[i])) ==>
                  1 <= |r| <= 2 && IsLower(r[0]) &&
                  exists i :: 0 <= i < |al| && IsLetter(al[i]) && r[0] == LowerChar(al[i]) &&
                              forall j :: 0 <= j < i ==> !IsLetter(al[j]))
    ensures var al := if Header(headers, "accept-language") != "" then Header(headers, "accept-language")
                      else Header(headers, "accept");
            FirstLetter(al, 0).Some? ==>
              var i := FirstLetter(al, 0).value;
              && (|r| == 2 <==> i + 1 < |al| && (IsLetter(al[i + 1]) || (al[i + 1] == '-' && i + 2 < |al| && IsLetter(al[i + 2]))))
              && (|r| == 2 ==> r[1] == LowerChar(al[i + 1]))
  {
    var al := if Header(headers, "accept-language") != "" then Header(headers, "accept-language")
              else Header(headers, "accept");
    var m := FirstLetter(al, 0);
    if m.None? then fallback
    else
      var p := TagPrefix(al, m.value);
      Lower(p)
  }

  /** A regional tag yields its language: `hu-HU,hu;q=0.9,en;q=0.8` gives `hu`. */
  lemma RegionalTagGivesLanguage()
    ensures DetectLocale(map["accept-language" := "hu-HU,hu;q=0.9,en;q=0.8"], "hu") == "hu"
  {
    var al := "hu-HU,hu;q=0.9,en;q=0.8";
    assert FirstLetter(al, 0) == Some(0);
    assert TagPrefix(al, 0) == "hu";
  }

  /** Quality values are ignored: the first tag wins even when a later one
      is preferred. */
  lemma QualityIgnored()
    ensures DetectLocale(map["accept-language" := "en;q=0.1,hu;q=0.9"], "hu") == "en"
  {
    var al := "en;q=0.1,hu;q=0.9";
    assert FirstLetter(al, 0) == Some(0);
    assert TagPrefix(al, 0) == "en";
  }

  /** Without Accept-Language the Accept header is sniffed as if it were
      one, so a JSON client is taken to speak "ap". */
  lemma JsonClientGetsAp()
    ensures DetectLocale(map["accept" := "application/json"], "hu") == "ap"
  {
    var al := "application/json";
    assert FirstLetter(al, 0) == Some(0);
    assert TagPrefix(al, 0) == "ap";
  }

  // ---------------------------------------------------------------------
  // Key lookup
  // ---------------------------------------------------------------------

  /** The reducer `acc && acc[p] !== undefined ? acc[p] : undefined`. */
  function Step(acc: JsValue, p: string): (r: JsValue)
    ensures r != Undefined ==> Truthy(acc) && r == Prop(acc, p)
    ensures Truthy(acc) && Prop(acc, p) != Undefined ==> r == Prop(acc, p)
  {
    if Truthy(acc) && Prop(acc, p) != Undefined then Prop(acc, p) else Undefined
  }

  /** `parts.reduce(Step, obj)`. */
  function Lookup(obj: JsValue, parts: seq<string>): JsValue
    decreases |parts|
  {
    if parts == [] then obj else Lookup(Step(obj, parts[0]), parts[1..])
  }

  /** Once a step misses, the whole walk misses. */
  lemma {:induction false} LookupFromUndefined(parts: seq<string>)
    ensures Lookup(Undefined, parts) == Undefined
    decreases |parts|
  {
    if parts != [] {
      LookupFromUndefined(parts[1..]);
    }
  }

  /** Walking a longer path is walking its prefix and then the rest. */
  lemma {:induction false} LookupAppend(obj: JsValue, ps: seq<string>, qs: seq<string>)
    ensures Lookup(obj, ps + qs) == Lookup(Lookup(obj, ps), qs)
    decreases |ps|
  {
    if ps == [] {
      assert ps + qs == qs;
    } else {
      assert (ps + qs)[0] == ps[0];
      assert (ps + qs)[1..] == ps[1..] + qs;
      LookupAppend(Step(obj, ps[0]), ps[1..], qs);
    }
  }

  /** Walking nested objects by the pieces of a key finds the leaf. */
  lemma {:induction false} LookupNested(fields: map<string, JsValue>, p: string, rest: seq<string>)
    requires p in fields && fields[p] != Undefined
    ensures Lookup(Obj(fields), [p] + rest) == Lookup(fields[p], rest)
  {
    assert ([p] + rest)[1..] == rest;
  }

  // ---------------------------------------------------------------------
  // Placeholder substitution
  // ---------------------------------------------------------------------

  /** The end of a `{name}` placeholder opening at `s[0]`: the first `}`,
      which must leave a non-empty name. */
  function Closing(s: string): (r: Option<nat>)
    requires s != [] && s[0] == '{'
    ensures r.Some? ==> 2 <= r.value < |s| && s[r.value] == '}' && '}' !in s[1..r.value]
  {
    if '}' in s[1..] then
      var j := CharIndex(s[1..], '}') + 1;
      assert s[1..][..j - 1] == s[1..j];
      if j >= 2 then Some(j) else None
    else None
  }

  /** `replace(/\{([^}]+)\}/g, ...)`: one left-to-right pass; a placeholder
      whose name is a key of `vars` becomes its value, any other stays as
      written, and replaced text is not scanned again. */
  function Substitute(s: string, vars: map<string, string>): string
    decreases |s|
  {
    if s == [] then []
    else if s[0] == '{' && Closing(s).Some? then
      var j := Closing(s).value;
      var name := s[1..j];
      (if name in vars then vars[name] else "{" + name + "}") + Substitute(s[j + 1..], vars)
    else [s[0]] + Substitute(s[1..], vars)
  }

  /** Substitution with no variables leaves the text as it is. */
  lemma {:induction false} SubstituteNoVars(s: string)
    ensures Substitute(s, map[]) == s
    decreases |s|
  {
    if s == [] {
    } else if s[0] == '{' && Closing(s).Some? {
      var j := Closing(s).value;
      var name := s[1..j];
      assert Substitute(s, map[]) == "{" + name + "}" + Substitute(s[j + 1..], map[]);
      SubstituteNoVars(s[j + 1..]);
      BraceSplit(s, j);
    } else {
      SubstituteNoVars(s[1..]);
      assert s == [s[0]] + s[1..];
    }
  }

  /** Text that opens with a brace closed at `j` is the braced name and
      what follows it. */
  lemma BraceSplit(s: string, j: nat)
    requires 1 <= j < |s| && s[0] == '{' && s[j] == '}'
    ensures s == "{" + s[1..j] + "}" + s[j + 1..]
  {
    assert s == s[..1] + s[1..j] + s[j..j + 1] + s[j + 1..];
  }

  /** Text without an opening brace is never changed. */
  lemma {:induction false} SubstituteNoBraces(s: string, vars: map<string, string>)
    requires '{' !in s
    ensures Substitute(s, vars) == s
    decreases |s|
  {
    if s != [] {
      SubstituteNoBraces(s[1..], vars);
      assert s == [s[0]] + s[1..];
    }
  }

  /** Every known placeholder is replaced by its value. */
  lemma {:induction false} SubstitutePlaceholder(name: string, vars: map<string, string>, rest: string)
    requires name != [] && '}' !in name && name in vars
    ensures Substitute("{" + name + "}" + rest, vars) == vars[name] + Substitute(rest, vars)
  {
    var s := "{" + name + "}" + rest;
    assert s[1..] == name + "}" + rest;
    CharIndexAfter(name, '}', rest);
    assert s[1..|name| + 1] == name;
    assert s[|name| + 2..] == rest;
  }

  /** The substitution is a single pass: a value that itself looks like a
      placeholder is not expanded again. */
  lemma SinglePass()
    ensures Substitute("{a}", map["a" := "{b}", "b" := "x"]) == "{b}"
  {
    assert "{a}" == "{" + "a" + "}" + "";
    SubstitutePlaceholder("a", map["a" := "{b}", "b" := "x"], "");
  }

  // ---------------------------------------------------------------------
  // t
  // ---------------------------------------------------------------------

  /** `t(locale, key, vars)`: the string at the dotted key in the locale's
      table; an undefined result in another locale is retried in Hungarian;
      anything but a string yields the key itself. */
  function T(catalogue: map<string, JsValue>, locale: string, key: string, vars: map<string, string>): (r: string)
    ensures var here := Lookup(GetLocaleObj(catalogue, locale), Split(key, '.'));
            var hu := Lookup(GetLocaleObj(catalogue, DefaultLocale), Split(key, '.'));
            && (here.Str? ==> r == Substitute(here.s, vars))
            && (here != Undefined && !here.Str? ==> r == key)
            && (here == Undefined && hu.Str? ==> r == Substitute(hu.s, vars))
            && (here == Undefined && !hu.Str? ==> r == key)
  {
    var parts := Split(key, '.');
    var v := Lookup(GetLocaleObj(catalogue, locale), parts);
    var w := if v == Undefined && locale != DefaultLocale
             then Lookup(GetLocaleObj(catalogue, DefaultLocale), parts) else v;
    if w.Str? then Substitute(w.s, vars) else key
  }

  /** A message present in the requested locale is returned verbatim when
      no variables are given. */
  lemma FoundMessage(catalogue: map<string, JsValue>, locale: string, key: string, msg: string)
    requires Lookup(GetLocaleObj(catalogue, locale), Split(key, '.')) == Str(msg)
    ensures T(catalogue, locale, key, map[]) == msg
  {
    SubstituteNoVars(msg);
  }

  /** A message missing in English but present in Hungarian comes out in
      Hungarian. */
  lemma FallsBackToHungarian(catalogue: map<string, JsValue>, key: string, msg: string)
    requires Lookup(GetLocaleObj(catalogue, "en"), Split(key, '.')) == Undefined
    requires Lookup(GetLocaleObj(catalogue, DefaultLocale), Split(key, '.')) == Str(msg)
    ensures T(catalogue, "en", key, map[]) == msg
  {
    SubstituteNoVars(msg);
  }

  /** A message the requested locale does not define is answered exactly
      as the Hungarian catalogue answers it. */
  lemma MissingKeyAnsweredInHungarian(catalogue: map<string, JsValue>, locale: string, key: string, vars: map<string, string>)
    requires Lookup(GetLocaleObj(catalogue, locale), Split(key, '.')) == Undefined
    ensures T(catalogue, locale, key, vars) == T(catalogue, DefaultLocale, key, vars)
  {
  }

  /** A locale without a table of its own speaks Hungarian throughout. */
  lemma UnknownLocaleIsHungarian(catalogue: map<string, JsValue>, locale: string, key: string, vars: map<string, string>)
    requires !Truthy(Get(catalogue, locale))
    ensures T(catalogue, locale, key, vars) == T(catalogue, DefaultLocale, key, vars)
  {
    assert GetLocaleObj(catalogue, locale) == GetLocaleObj(catalogue, DefaultLocale);
  }

  /** A key that resolves to a whole namespace (an object) is returned as
      the key, with no fallback: only `undefined` triggers the retry. */
  lemma NamespaceGivesKey(catalogue: map<string, JsValue>, locale: string, key: string, vars: map<string, string>)
    requires Lookup(GetLocaleObj(catalogue, locale), Split(key, '.')).Obj?
    ensures T(catalogue, locale, key, vars) == key
  {
  }
}
