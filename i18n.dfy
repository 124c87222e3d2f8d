/** src/i18n/index.tsx: dotted-path lookup in the translation dictionaries,
    `{k}` placeholder substitution, and the `t` function the provider hands out. */
module I18n {
  import opened Wrappers
  import opened Strings

  /** A dictionary value: strings, numbers, nested objects, and null. */
  datatype Value = Str(s: string) | Num(n: int) | Obj(entries: map<string, Value>) | Null

  /** JavaScript truthiness of a value. */
  predicate Truthy(v: Value) {
    match v
    case Str(s) => s != ""
    case Num(n) => n != 0
    case Obj(_) => true
    case Null => false
  }

  /** `path.split('.')`: the pieces between the dots, one more than there are dots. */
  function Split(s: string): (parts: seq<string>)
    ensures |parts| >= 1
    ensures forall i :: 0 <= i < |parts| ==> '.' !in parts[i]
  {
    if s == [] then [""]
    else if s[0] == '.' then [""] + Split(s[1..])
    else var rest := Split(s[1..]); [[s[0]] + rest[0]] + rest[1..]
  }

  /** The pieces joined back with dots. */
  function Join(parts: seq<string>): string
    requires |parts| >= 1
  {
    if |parts| == 1 then parts[0] else parts[0] + "." + Join(parts[1..])
  }

  /** Splitting loses nothing: joining the pieces gives back the path. */
  lemma {:induction false} SplitJoin(s: string)
    ensures Join(Split(s)) == s
  {
    if s != [] {
      SplitJoin(s[1..]);
      var rest := Split(s[1..]);
      if s[0] == '.' {
        assert Split(s) == [""] + rest;
        assert s == "" + "." + s[1..];
      } else {
        if |rest| == 1 {
          assert Join(Split(s)) == [s[0]] + rest[0];
        } else {
          assert Split(s)[1..] == rest[1..];
          assert Join(Split(s)) == [s[0]] + rest[0] + "." + Join(rest[1..]);
        }
      }
    }
  }

  /** One step of get's reduce: `acc && acc[key] != null ? acc[key] : undefined`.
      None is undefined. Only objects have members here. */
  function Step(acc: Option<Value>, key: string): (r: Option<Value>)
    ensures r.Some? ==> r.value != Null && acc.Some? && acc.value.Obj? && key in acc.value.entries
                        && r.value == acc.value.entries[key]
    ensures acc.Some? && acc.value.Obj? && key in acc.value.entries && acc.value.entries[key] != Null ==> r.Some?
  {
    if acc.Some? && Truthy(acc.value) && acc.value.Obj? && key in acc.value.entries && acc.value.entries[key] != Null
    then Some(acc.value.entries[key])
    else None
  }

  /** The reduce over the segments. */
  function Walk(acc: Option<Value>, keys: seq<string>): (r: Option<Value>)
    ensures keys != [] && r.Some? ==> r.value != Null && acc.Some? && acc.value.Obj?
    decreases keys
  {
    if keys == [] then acc else Walk(Step(acc, keys[0]), keys[1..])
  }

  /** `get(obj, path)`. */
  function Lookup(obj: Option<Value>, path: string): (r: Option<Value>)
    ensures r.Some? ==> r.value != Null && obj.Some? && obj.value.Obj?
  {
    Walk(obj, Split(path))
  }

  /** Once undefined, the walk stays undefined. */
  lemma {:induction false} UndefinedAbsorbs(keys: seq<string>)
    ensures Walk(None, keys) == None
  {
    if keys != [] {
      UndefinedAbsorbs(keys[1..]);
    }
  }

  /** Walking a path in two parts is walking the first and then the second. */
  lemma {:induction false} WalkConcat(acc: Option<Value>, a: seq<string>, b: seq<string>)
    ensures Walk(acc, a + b) == Walk(Walk(acc, a), b)
    decreases a
  {
    if a == [] {
      assert a + b == b;
    } else {
      assert (a + b)[1..] == a[1..] + b;
      WalkConcat(Step(acc, a[0]), a[1..], b);
    }
  }

  /** A missing or null member anywhere along the path makes the lookup undefined. */
  lemma MissingSegmentIsUndefined(acc: Option<Value>, a: seq<string>, key: string, b: seq<string>)
    requires var here := Walk(acc, a); here.None? || !here.value.Obj? || key !in here.value.entries || here.value.entries[key] == Null
    ensures Walk(acc, a + [key] + b) == None
  {
    WalkConcat(acc, a, [key] + b);
    assert a + [key] + b == a + ([key] + b);
    assert ([key] + b)[1..] == b;
    assert Step(Walk(acc, a), key) == None;
    UndefinedAbsorbs(b);
  }

  /** A defined result is reached through objects only, and is never null. */
  lemma {:induction false} DefinedMeansFound(acc: Option<Value>, keys: seq<string>)
    requires keys != [] && Walk(acc, keys).Some?
    ensures Walk(acc, keys).value != Null
    ensures Walk(acc, keys[..|keys| - 1]).Some? && Walk(acc, keys[..|keys| - 1]).value.Obj?
  {
    var n := |keys| - 1;
    assert keys == keys[..n] + [keys[n]];
    WalkConcat(acc, keys[..n], [keys[n]]);
    var before := Walk(acc, keys[..n]);
    assert Walk(acc, keys) == Walk(Step(before, keys[n]), []);
  }

  /** An occurrence in the tail is an occurrence one further on in the whole. */
  lemma ShiftOccurs(s: string, pat: string, i: int)
    requires s != [] && 0 <= i
    ensures OccursAt(s[1..], pat, i) <==> OccursAt(s, pat, i + 1)
  {
    if 0 <= i && i + |pat| <= |s| - 1 {
      assert s[1..][i..i + |pat|] == s[i + 1..i + 1 + |pat|];
    }
  }

  /** A string without the pattern's first character holds no occurrence of it. */
  lemma NoFirstCharNoOccurrence(s: string, pat: string)
    requires pat != []
    requires forall i :: 0 <= i < |s| ==> s[i] != pat[0]
    ensures forall i :: !OccursAt(s, pat, i)
  {
    forall i | OccursAt(s, pat, i) ensures s[i] == pat[0] {
      assert s[i..i + |pat|][0] == s[i];
    }
  }

  /** `s.replace(/pat/g, rep)` for a literal, non-empty pattern: left to right,
      replaced occurrences do not overlap, and the scan continues after each. */
  function ReplaceAll(s: string, pat: string, rep: string): (r: string)
    requires pat != []
    ensures rep == pat ==> r == s
    ensures |rep| == |pat| ==> |r| == |s|
    decreases |s|
  {
    if |s| < |pat| then s
    else if s[..|pat|] == pat then rep + ReplaceAll(s[|pat|..], pat, rep)
    else [s[0]] + ReplaceAll(s[1..], pat, rep)
  }

  /** Without an occurrence the string is unchanged. */
  lemma {:induction false} ReplaceAbsent(s: string, pat: string, rep: string)
    requires pat != []
    requires forall i :: !OccursAt(s, pat, i)
    ensures ReplaceAll(s, pat, rep) == s
  {
    if |s| >= |pat| {
      assert !OccursAt(s, pat, 0);
      forall i ensures !OccursAt(s[1..], pat, i) {
        if 0 <= i {
          ShiftOccurs(s, pat, i);
        }
      }
      ReplaceAbsent(s[1..], pat, rep);
    }
  }

  /** An occurrence at the start is replaced and the scan resumes after it. */
  lemma ReplaceAtStart(s: string, pat: string, rep: string)
    requires pat != [] && OccursAt(s, pat, 0)
    ensures ReplaceAll(s, pat, rep) == rep + ReplaceAll(s[|pat|..], pat, rep)
  {
    assert s[..|pat|] == s[0..0 + |pat|];
  }

  /** Without an occurrence at the start, the first character is kept. */
  lemma ReplaceSkipsFirst(s: string, pat: string, rep: string)
    requires pat != [] && s != [] && !OccursAt(s, pat, 0)
    ensures ReplaceAll(s, pat, rep) == [s[0]] + ReplaceAll(s[1..], pat, rep)
  {
    if |s| >= |pat| {
      assert s[..|pat|] == s[0..0 + |pat|];
    }
  }

  /** The first occurrence, at m, is replaced; what comes before it is kept
      and the replacement goes on after the occurrence. */
  lemma {:induction false} ReplaceFirst(s: string, pat: string, rep: string, m: int)
    requires pat != []
    requires OccursAt(s, pat, m)
    requires forall i :: 0 <= i < m ==> !OccursAt(s, pat, i)
    ensures ReplaceAll(s, pat, rep) == s[..m] + rep + ReplaceAll(s[m + |pat|..], pat, rep)
    decreases m
  {
    if m == 0 {
      ReplaceAtStart(s, pat, rep);
      assert s[..0] == [];
    } else {
      var t := s[1..];
      ReplaceSkipsFirst(s, pat, rep);
      FirstOccurrenceInTail(s, pat, m);
      ReplaceFirst(t, pat, rep, m - 1);
      assert t[m - 1 + |pat|..] == s[m + |pat|..];
      var rest := ReplaceAll(s[m + |pat|..], pat, rep);
      var rt := ReplaceAll(t, pat, rep);
      assert rt == t[..m - 1] + rep + rest;
      assert ReplaceAll(s, pat, rep) == [s[0]] + rt;
      ConsPrefix(s, m, rep, rest);
    }
  }

  /** Dropping the first character moves the first occurrence one to the left. */
  lemma FirstOccurrenceInTail(s: string, pat: string, m: int)
    requires 1 <= m && OccursAt(s, pat, m)
    requires forall i :: 0 <= i < m ==> !OccursAt(s, pat, i)
    ensures OccursAt(s[1..], pat, m - 1)
    ensures forall i :: 0 <= i < m - 1 ==> !OccursAt(s[1..], pat, i)
  {
    ShiftOccurs(s, pat, m - 1);
    forall i | 0 <= i < m - 1 ensures !OccursAt(s[1..], pat, i) {
      ShiftOccurs(s, pat, i);
    }
  }

  lemma ConsPrefix(s: string, m: int, rep: string, rest: string)
    requires 1 <= m <= |s|
    ensures [s[0]] + (s[1..][..m - 1] + rep + rest) == s[..m] + rep + rest
  {
    assert [s[0]] + s[1..][..m - 1] == s[..m];
  }

  /** A parameter value: `String(v)` of a string or a number. */
  datatype Param = PStr(s: string) | PNum(n: int)

  function ParamText(p: Param): string {
    match p
    case PStr(s) => s
    case PNum(n) => IntToString(n)
  }

  /** `{k}` for a parameter key. */
  function Placeholder(k: string): (r: string)
    ensures r != [] && r[0] == '{' && r[|r| - 1] == '}'
  {
    "{" + k + "}"
  }

  /** The reduce over the parameters, in `Object.keys` order. */
  function Substitute(s: string, params: seq<(string, Param)>): (r: string)
    ensures (forall i :: 0 <= i < |s| ==> s[i] != '{') ==> r == s
    decreases |params|
  {
    if params == [] then s
    else
      var pat := Placeholder(params[0].0);
      var v := ParamText(params[0].1);
      BraceFreeUnreplaced(s, pat, v);
      Substitute(ReplaceAll(s, pat, v), params[1..])
  }

  /** A string without `{` holds no placeholder, so a replacement leaves it alone. */
  lemma BraceFreeUnreplaced(s: string, pat: string, rep: string)
    requires pat != [] && pat[0] == '{'
    ensures (forall i :: 0 <= i < |s| ==> s[i] != '{') ==> ReplaceAll(s, pat, rep) == s
  {
    if forall i :: 0 <= i < |s| ==> s[i] != '{' {
      NoFirstCharNoOccurrence(s, pat);
      ReplaceAbsent(s, pat, rep);
    }
  }

  /** format: without parameters, or without any placeholder, the string is
      returned as it is. */
  function Format(s: string, params: Option<seq<(string, Param)>>): (r: string)
    ensures params.None? || (forall i :: 0 <= i < |s| ==> s[i] != '{') ==> r == s
  {
    if params.None? then s else Substitute(s, params.value)
  }

  /** A one-parameter format of a string holding the placeholder once fills it in. */
  lemma FormatOne(before: string, k: string, v: Param, after: string)
    requires forall i :: 0 <= i < |before| ==> before[i] != '{'
    requires forall i :: 0 <= i < |after| ==> after[i] != '{'
    ensures Format(before + Placeholder(k) + after, Some([(k, v)])) == before + ParamText(v) + after
  {
    var pat := Placeholder(k);
    var s := before + pat + after;
    assert s[|before|..|before| + |pat|] == pat;
    forall i | OccursAt(s, pat, i) ensures s[i] == '{' {
      assert s[i..i + |pat|][0] == s[i];
    }
    assert forall i :: 0 <= i < |before| ==> s[i] == before[i];
    ReplaceFirst(s, pat, ParamText(v), |before|);
    assert s[|before| + |pat|..] == after;
    NoFirstCharNoOccurrence(after, pat);
    ReplaceAbsent(after, pat, ParamText(v));
    assert s[..|before|] == before;
    assert Substitute(s, [(k, v)]) == Substitute(ReplaceAll(s, pat, ParamText(v)), []);
  }

  const DefaultLang := "zh-CN"

  /** toLocale. */
  function ToLocale(lang: string): (r: string)
    ensures r == "zh-CN" || r == "en-US"
    ensures r == "zh-CN" <==> lang == "zh-CN"
  {
    if lang == "zh-CN" then "zh-CN" else "en-US"
  }

  /** The provider's `t` for the current language: a string found under the
      key is formatted, anything else (a missing key, an object, a number, a
      language without a dictionary) gives back the key. */
  function Translate(dicts: map<string, Value>, lang: string, key: string, params: Option<seq<(string, Param)>>): (r: string)
    ensures var found := Lookup(if lang in dicts then Some(dicts[lang]) else None, key);
      if found.Some? && found.value.Str? then r == Format(found.value.s, params) else r == key
  {
    match Lookup(if lang in dicts then Some(dicts[lang]) else None, key)
    case Some(Str(v)) => Format(v, params)
    case _ => key
  }

  /** A language without a dictionary translates every key to itself. */
  lemma UnknownLanguageGivesKey(dicts: map<string, Value>, lang: string, key: string, params: Option<seq<(string, Param)>>)
    requires lang !in dicts
    ensures Translate(dicts, lang, key, params) == key
  {
    UndefinedAbsorbs(Split(key));
  }

  /** The context's default `t`, used outside a provider. */
  function DefaultTranslate(key: string): string {
    key
  }
}
