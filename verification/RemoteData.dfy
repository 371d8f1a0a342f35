/** The remote-data sanitizer and the import validator: two traversals of the same
    JSON value, one dropping what the other rejects. */
module RemoteData {
  import opened Domain

  const MAX_DEPTH := 32

  /** The two tests both traversals share: which keys hold URLs, and which strings
      are acceptable URLs. */
  datatype Rules = Rules(urlKey: string -> bool, validUrl: string -> bool)
  {
    /** List elements are visited under the empty key, which has no segments and so
        never names a URL. */
    predicate Ok() { !urlKey("") }
  }

  // ----- The sanitizer -----

  function ValidStrings(rules: Rules, items: seq<Json>): seq<Json> {
    if items == [] then []
    else
      var rest := ValidStrings(rules, items[1..]);
      if items[0].Str? && rules.validUrl(items[0].s) then [items[0]] + rest else rest
  }

  function SanitizeMap(rules: Rules, m: map<string, Json>, depth: nat): map<string, Json>
    decreases Obj(m), 0
  {
    map k | k in m && SanitizeValue(rules, k, m[k], depth).Some? :: SanitizeValue(rules, k, m[k], depth).value
  }

  function SanitizeItems(rules: Rules, items: seq<Json>, depth: nat): seq<Json>
    decreases items, 0
  {
    if items == [] then []
    else
      var kept := SanitizeValue(rules, "", items[0], depth);
      var rest := SanitizeItems(rules, items[1..], depth);
      if kept.Some? then [kept.value] + rest else rest
  }

  /** What remains of the value `v` found under `key`, or None if it is dropped. */
  function SanitizeValue(rules: Rules, key: string, v: Json, depth: nat): Option<Json>
    decreases v, 1
  {
    if depth > MAX_DEPTH then None
    else if rules.urlKey(key) && !v.Obj? then
      match v
      case Str(s) => if rules.validUrl(s) then Some(v) else None
      case List(items) => Some(List(ValidStrings(rules, items)))
      case _ => None
    else
      match v
      case Obj(m) => Some(Obj(SanitizeMap(rules, m, depth + 1)))
      case List(items) => Some(List(SanitizeItems(rules, items, depth + 1)))
      case _ => Some(v)
  }

  function SanitizeRemoteData(rules: Rules, remote: Option<map<string, Json>>): Option<map<string, Json>> {
    if remote.None? then None else Some(SanitizeMap(rules, remote.value, 0))
  }

  // ----- The validator -----

  predicate ValidateMap(rules: Rules, m: map<string, Json>, depth: nat)
    decreases Obj(m), 0
  {
    depth <= MAX_DEPTH && forall k | k in m :: ValidateValue(rules, k, m[k], depth)
  }

  predicate ValidateValue(rules: Rules, key: string, v: Json, depth: nat)
    decreases v, 1
  {
    depth <= MAX_DEPTH &&
    match v
    case Str(s) => rules.urlKey(key) ==> rules.validUrl(s)
    case List(items) =>
      if rules.urlKey(key) then
        forall i | 0 <= i < |items| :: items[i].Str? ==> rules.validUrl(items[i].s)
      else
        forall i | 0 <= i < |items| :: ValidateValue(rules, "", items[i], depth + 1)
    case Obj(m) => ValidateMap(rules, m, depth + 1)
    case _ => true
  }

  // ----- Reading a value by path -----

  datatype Step = Key(key: string) | Index(i: nat)

  function Get(v: Json, path: seq<Step>): Option<Json> {
    if path == [] then Some(v)
    else
      match (v, path[0])
      case (Obj(m), Key(k)) => if k in m then Get(m[k], path[1..]) else None
      case (List(items), Index(i)) => if i < |items| then Get(items[i], path[1..]) else None
      case _ => None
  }

  /** A string at `path`, reached by step `from`, is in a URL position: its own key bears
      URLs, or it is an element of a list whose key does. Below such a list nothing else
      is looked at. */
  predicate UrlPosition(rules: Rules, from: Step, path: seq<Step>)
    decreases path
  {
    if path == [] then from.Key? && rules.urlKey(from.key)
    else if from.Key? && rules.urlKey(from.key) && path[0].Index? then |path| == 1
    else UrlPosition(rules, path[0], path[1..])
  }

  /** Every string of `m` that is in a URL position is an acceptable URL. */
  ghost predicate UrlsValid(rules: Rules, m: map<string, Json>) {
    forall path: seq<Step> {:trigger Get(Obj(m), path)} ::
      path != [] && UrlPosition(rules, path[0], path[1..]) && Get(Obj(m), path).Some? && Get(Obj(m), path).value.Str?
      ==> rules.validUrl(Get(Obj(m), path).value.s)
  }

  /** Nothing but a string, a list or a map stands in a URL position, and nothing but strings in
      a list there. */
  ghost predicate NoStray(rules: Rules, m: map<string, Json>) {
    forall path: seq<Step> {:trigger Get(Obj(m), path)} ::
      path != [] && UrlPosition(rules, path[0], path[1..]) && Get(Obj(m), path).Some?
      ==> Straight(path[|path| - 1].Index?, Get(Obj(m), path).value)
  }

  predicate Straight(listed: bool, v: Json) { v.Str? || (!listed && (v.List? || v.Obj?)) }

  /** What may stand under a URL-bearing key. */
  predicate UrlPayload(rules: Rules, v: Json) {
    match v
    case Str(s) => rules.validUrl(s)
    case List(items) => forall i | 0 <= i < |items| :: items[i].Str? && rules.validUrl(items[i].s)
    case Obj(_) => true
    case _ => false
  }

  /** However deep, whatever stands under a URL-bearing key is harmless. */
  ghost predicate Safe(rules: Rules, m: map<string, Json>) {
    forall path: seq<Step>, k: string {:trigger Get(Obj(m), path + [Key(k)])} ::
      rules.urlKey(k) && Get(Obj(m), path + [Key(k)]).Some?
      ==> UrlPayload(rules, Get(Obj(m), path + [Key(k)]).value)
  }

  /** Nesting strictly inside the limit: at most `room` containers on any branch. */
  predicate Fits(v: Json, room: int)
    decreases v
  {
    match v
    case List(items) => room > 0 && forall i | 0 <= i < |items| :: Fits(items[i], room - 1)
    case Obj(m) => room > 0 && forall k | k in m :: Fits(m[k], room - 1)
    case _ => true
  }

  predicate BelowLimit(m: map<string, Json>) {
    forall k | k in m :: Fits(m[k], MAX_DEPTH)
  }

  // ----- What the sanitizer does to data the validator accepts -----

  function OnlyStrings(items: seq<Json>): seq<Json> {
    if items == [] then []
    else
      var rest := OnlyStrings(items[1..]);
      if items[0].Str? then [items[0]] + rest else rest
  }

  function PruneMap(rules: Rules, m: map<string, Json>): map<string, Json>
    decreases Obj(m), 0
  {
    map k | k in m && PruneValue(rules, k, m[k]).Some? :: PruneValue(rules, k, m[k]).value
  }

  function PruneItems(rules: Rules, items: seq<Json>): seq<Json>
    decreases items, 0
  {
    if items == [] then []
    else
      var kept := PruneValue(rules, "", items[0]);
      var rest := PruneItems(rules, items[1..]);
      if kept.Some? then [kept.value] + rest else rest
  }

  /** Removes only what is not a string directly under, or in a list directly under, a
      URL-bearing key. It looks neither at the depth nor at the URLs. */
  function PruneValue(rules: Rules, key: string, v: Json): Option<Json>
    decreases v, 1
  {
    if rules.urlKey(key) && !v.Obj? then
      match v
      case Str(_) => Some(v)
      case List(items) => Some(List(OnlyStrings(items)))
      case _ => None
    else
      match v
      case Obj(m) => Some(Obj(PruneMap(rules, m)))
      case List(items) => Some(List(PruneItems(rules, items)))
      case _ => Some(v)
  }

  // ----- Clean values: a recursive form of Safe -----

  predicate Clean(rules: Rules, key: string, v: Json)
    decreases v
  {
    && (rules.urlKey(key) ==> UrlPayload(rules, v))
    && match v
       case Obj(m) => forall k | k in m :: Clean(rules, k, m[k])
       case List(items) => rules.urlKey(key) || forall i | 0 <= i < |items| :: Clean(rules, "", items[i])
       case _ => true
  }

  lemma {:induction false} ValidStringsAreUrls(rules: Rules, items: seq<Json>)
    ensures UrlPayload(rules, List(ValidStrings(rules, items)))
    ensures ValidStrings(rules, ValidStrings(rules, items)) == ValidStrings(rules, items)
  {
    if items != [] {
      ValidStringsAreUrls(rules, items[1..]);
      var rest := ValidStrings(rules, items[1..]);
      if items[0].Str? && rules.validUrl(items[0].s) {
        assert ([items[0]] + rest)[1..] == rest;
      }
    }
  }

  lemma {:induction false} SanitizedValueClean(rules: Rules, key: string, v: Json, depth: nat)
    requires rules.Ok()
    ensures var w := SanitizeValue(rules, key, v, depth); w.Some? ==> Clean(rules, key, w.value)
    decreases v, 1
  {
    if depth <= MAX_DEPTH {
      match v
      case Obj(m) =>
        forall k | k in m { SanitizedValueClean(rules, k, m[k], depth + 1); }
      case List(items) =>
        if rules.urlKey(key) {
          ValidStringsAreUrls(rules, items);
        } else {
          SanitizedItemsClean(rules, items, depth + 1);
        }
      case _ =>
    }
  }

  lemma {:induction false} SanitizedItemsClean(rules: Rules, items: seq<Json>, depth: nat)
    requires rules.Ok()
    ensures forall w | w in SanitizeItems(rules, items, depth) :: Clean(rules, "", w)
    decreases items, 0
  {
    if items != [] {
      SanitizedValueClean(rules, "", items[0], depth);
      SanitizedItemsClean(rules, items[1..], depth);
    }
  }

  lemma {:induction false} CleanValueSafeAt(rules: Rules, key: string, v: Json, path: seq<Step>, k: string)
    requires rules.Ok() && Clean(rules, key, v)
    requires rules.urlKey(k) && Get(v, path + [Key(k)]).Some?
    ensures UrlPayload(rules, Get(v, path + [Key(k)]).value)
    decreases path
  {
    var full := path + [Key(k)];
    if path == [] {
      assert full[1..] == [];
    } else {
      assert full[1..] == path[1..] + [Key(k)];
      match v
      case Obj(m) => CleanValueSafeAt(rules, path[0].key, m[path[0].key], path[1..], k);
      case List(items) =>
        var item := items[path[0].i];
        if !rules.urlKey(key) {
          CleanValueSafeAt(rules, "", item, path[1..], k);
        }
    }
  }

  /** Whatever the input and however deep, the sanitizer's output holds nothing but
      acceptable URLs, lists of them and maps under a URL-bearing key. */
  lemma SanitizedIsSafe(rules: Rules, m: map<string, Json>, depth: nat)
    requires rules.Ok()
    ensures Safe(rules, SanitizeMap(rules, m, depth))
  {
    var out := SanitizeMap(rules, m, depth);
    forall k | k in m { SanitizedValueClean(rules, k, m[k], depth); }
    forall path: seq<Step>, k: string | rules.urlKey(k) && Get(Obj(out), path + [Key(k)]).Some?
      ensures UrlPayload(rules, Get(Obj(out), path + [Key(k)]).value)
    {
      assert Clean(rules, "", Obj(out));
      CleanValueSafeAt(rules, "", Obj(out), path, k);
    }
  }

  // ----- Idempotence -----

  lemma {:induction false} SanitizeValueTwice(rules: Rules, key: string, v: Json, depth: nat)
    ensures var w := SanitizeValue(rules, key, v, depth);
            w.Some? ==> SanitizeValue(rules, key, w.value, depth) == w
    decreases v, 1
  {
    if depth <= MAX_DEPTH {
      match v
      case Obj(m) => SanitizeMapTwice(rules, m, depth + 1);
      case List(items) =>
        if rules.urlKey(key) {
          ValidStringsAreUrls(rules, items);
        } else {
          SanitizeItemsTwice(rules, items, depth + 1);
        }
      case _ =>
    }
  }

  lemma {:induction false} SanitizeItemsTwice(rules: Rules, items: seq<Json>, depth: nat)
    ensures SanitizeItems(rules, SanitizeItems(rules, items, depth), depth) == SanitizeItems(rules, items, depth)
    decreases items, 0
  {
    if items != [] {
      SanitizeValueTwice(rules, "", items[0], depth);
      SanitizeItemsTwice(rules, items[1..], depth);
      var kept := SanitizeValue(rules, "", items[0], depth);
      var rest := SanitizeItems(rules, items[1..], depth);
      if kept.Some? {
        assert ([kept.value] + rest)[1..] == rest;
      }
    }
  }

  /** Sanitizing twice is sanitizing once, at every depth. */
  lemma {:induction false} SanitizeMapTwice(rules: Rules, m: map<string, Json>, depth: nat)
    ensures SanitizeMap(rules, SanitizeMap(rules, m, depth), depth) == SanitizeMap(rules, m, depth)
    decreases Obj(m), 0
  {
    forall k | k in m { SanitizeValueTwice(rules, k, m[k], depth); }
  }

  // ----- The validator accepts exactly the values whose URL strings are valid -----

  /** What is asked of the values in URL positions. */
  datatype Test = IsUrl | IsStraight

  predicate Passes(rules: Rules, t: Test, listed: bool, v: Json) {
    match t
    case IsUrl => v.Str? ==> rules.validUrl(v.s)
    case IsStraight => Straight(listed, v)
  }

  predicate Listed(from: Step, path: seq<Step>) { (if path == [] then from else path[|path| - 1]).Index? }

  /** Every value in a URL position below step `from` passes the test. */
  ghost predicate HoldsFrom(rules: Rules, t: Test, from: Step, v: Json) {
    forall path: seq<Step> {:trigger Get(v, path)} ::
      UrlPosition(rules, from, path) && Get(v, path).Some? ==> Passes(rules, t, Listed(from, path), Get(v, path).value)
  }

  /** The key a value reached by this step is visited under. */
  function KeyOf(from: Step): string {
    if from.Key? then from.key else ""
  }

  predicate UrlStep(rules: Rules, from: Step) { from.Key? && rules.urlKey(from.key) }

  /** To judge a map or list it is enough to judge it and its children. */
  lemma HoldsByChildren(rules: Rules, t: Test, from: Step, v: Json)
    requires v.Obj? ==> forall k | k in v.fields :: HoldsFrom(rules, t, Key(k), v.fields[k])
    requires v.List? ==> !UrlStep(rules, from) && forall i | 0 <= i < |v.items| ::
            HoldsFrom(rules, t, Index(i), v.items[i])
    requires (v.Obj? || v.List?) && (UrlStep(rules, from) ==> Passes(rules, t, false, v))
    ensures HoldsFrom(rules, t, from, v)
  {
    forall path: seq<Step> | UrlPosition(rules, from, path) && Get(v, path).Some?
      ensures Passes(rules, t, Listed(from, path), Get(v, path).value)
    {
      if path != [] {
        assert path == [path[0]] + path[1..];
        ChildPath(v, path[0], path[1..]);
        match (v, path[0])
        case (Obj(m), Key(k)) => assert Get(m[k], path[1..]).Some?;
        case (List(items), Index(i)) => assert Get(items[i], path[1..]).Some?;
      }
    }
  }

  lemma HoldsOfField(rules: Rules, t: Test, from: Step, v: Json, k: string)
    requires v.Obj? && k in v.fields && HoldsFrom(rules, t, from, v)
    ensures HoldsFrom(rules, t, Key(k), v.fields[k])
  {
    forall rest: seq<Step> | UrlPosition(rules, Key(k), rest) && Get(v.fields[k], rest).Some?
      ensures Passes(rules, t, Listed(Key(k), rest), Get(v.fields[k], rest).value)
    {
      ChildPath(v, Key(k), rest);
      assert Get(v, [Key(k)] + rest).Some?;
    }
  }

  lemma HoldsOfItem(rules: Rules, t: Test, from: Step, v: Json, i: nat)
    requires v.List? && i < |v.items| && HoldsFrom(rules, t, from, v) && !UrlStep(rules, from)
    ensures HoldsFrom(rules, t, Index(i), v.items[i])
  {
    forall rest: seq<Step> | UrlPosition(rules, Index(i), rest) && Get(v.items[i], rest).Some?
      ensures Passes(rules, t, Listed(Index(i), rest), Get(v.items[i], rest).value)
    {
      ChildPath(v, Index(i), rest);
      assert Get(v, [Index(i)] + rest).Some?;
    }
  }

  lemma ChildPath(v: Json, s: Step, rest: seq<Step>)
    ensures ([s] + rest)[0] == s && ([s] + rest)[1..] == rest
    ensures forall from :: Listed(from, [s] + rest) == Listed(s, rest)
    ensures v.Obj? && s.Key? && s.key in v.fields ==> Get(v, [s] + rest) == Get(v.fields[s.key], rest)
    ensures v.List? && s.Index? && s.i < |v.items| ==> Get(v, [s] + rest) == Get(v.items[s.i], rest)
  {
    assert ([s] + rest)[1..] == rest;
  }

  /** A test of a value comes down to tests of the value and of its children. */
  lemma HoldsOfValue(rules: Rules, t: Test, from: Step, v: Json)
    ensures HoldsFrom(rules, t, from, v) <==>
            && (UrlStep(rules, from) ==> Passes(rules, t, false, v))
            && (v.Obj? ==> forall k | k in v.fields :: HoldsFrom(rules, t, Key(k), v.fields[k]))
            && (v.List? && !UrlStep(rules, from) ==> forall i | 0 <= i < |v.items| ::
                HoldsFrom(rules, t, Index(i), v.items[i]))
            && (v.List? && UrlStep(rules, from) ==> forall i | 0 <= i < |v.items| :: Passes(rules, t, true, v.items[i]))
  {
    assert Get(v, []) == Some(v);
    if HoldsFrom(rules, t, from, v) {
      if v.Obj? {
        forall k | k in v.fields { HoldsOfField(rules, t, from, v, k); }
      } else if v.List? && !UrlStep(rules, from) {
        forall i | 0 <= i < |v.items| { HoldsOfItem(rules, t, from, v, i); }
      }
    }
    if v.List? && UrlStep(rules, from) {
      HoldsOfUrlList(rules, t, from, v);
    } else if v.Obj? || v.List? {
      if (UrlStep(rules, from) ==> Passes(rules, t, false, v))
         && (v.Obj? ==> forall k | k in v.fields :: HoldsFrom(rules, t, Key(k), v.fields[k]))
         && (v.List? ==> forall i | 0 <= i < |v.items| :: HoldsFrom(rules, t, Index(i), v.items[i])) {
        HoldsByChildren(rules, t, from, v);
      }
    }
  }

  lemma HoldsOfUrlList(rules: Rules, t: Test, from: Step, v: Json)
    requires v.List? && UrlStep(rules, from)
    ensures HoldsFrom(rules, t, from, v)
            <==> Passes(rules, t, false, v) && forall i | 0 <= i < |v.items| :: Passes(rules, t, true, v.items[i])
  {
    assert Get(v, []) == Some(v);
    forall i | 0 <= i < |v.items|
      ensures Get(v, [Index(i)]) == Some(v.items[i]) && UrlPosition(rules, from, [Index(i)]) && Listed(from, [Index(i)])
    {
      ChildPath(v, Index(i), []);
      assert [Index(i)] + [] == [Index(i)];
    }
    if Passes(rules, t, false, v) && forall i | 0 <= i < |v.items| :: Passes(rules, t, true, v.items[i]) {
      forall path: seq<Step> | UrlPosition(rules, from, path) && Get(v, path).Some?
        ensures Passes(rules, t, Listed(from, path), Get(v, path).value)
      {
        if path != [] { assert |path| == 1 && path[1..] == []; }
      }
    }
    if HoldsFrom(rules, t, from, v) {
      forall i | 0 <= i < |v.items| ensures Passes(rules, t, true, v.items[i]) {
        assert Get(v, [Index(i)]).Some?;
      }
    }
  }

  /** No value that is looked at lies beyond the limit, and no map lies right at it. */
  predicate WithinLimit(rules: Rules, key: string, v: Json, depth: nat)
    decreases v
  {
    match v
    case Obj(m) => depth < 32 && forall k | k in m :: WithinLimit(rules, k, m[k], depth + 1)
    case List(items) =>
      depth <= 32 && (rules.urlKey(key) || forall i | 0 <= i < |items| :: WithinLimit(rules, "", items[i], depth + 1))
    case _ => depth <= 32
  }

  lemma {:induction false} ValidateValueMeaning(rules: Rules, from: Step, v: Json, depth: nat)
    requires rules.Ok()
    ensures ValidateValue(rules, KeyOf(from), v, depth)
            <==> HoldsFrom(rules, IsUrl, from, v) && WithinLimit(rules, KeyOf(from), v, depth)
    decreases v
  {
    hide HoldsFrom;
    HoldsOfValue(rules, IsUrl, from, v);
    match v {
      case Obj(m) => forall k | k in m { ValidateValueMeaning(rules, Key(k), m[k], depth + 1); }
      case List(items) =>
        if !UrlStep(rules, from) {
          forall i | 0 <= i < |items| { ValidateValueMeaning(rules, Index(i), items[i], depth + 1); }
        }
      case _ =>
    }
  }

  lemma {:induction false} FitsIsWithin(rules: Rules, key: string, v: Json, depth: nat)
    requires depth <= MAX_DEPTH && Fits(v, MAX_DEPTH - depth)
    ensures WithinLimit(rules, key, v, depth)
    decreases v
  {
    match v
    case Obj(m) => forall k | k in m { FitsIsWithin(rules, k, m[k], depth + 1); }
    case List(items) => forall i | 0 <= i < |items| { FitsIsWithin(rules, "", items[i], depth + 1); }
    case _ =>
  }

  /** The two properties of a whole map, said of a step that leads to it. */
  lemma HoldsOfMap(rules: Rules, m: map<string, Json>)
    ensures UrlsValid(rules, m) <==> HoldsFrom(rules, IsUrl, Index(0), Obj(m))
    ensures NoStray(rules, m) <==> HoldsFrom(rules, IsStraight, Index(0), Obj(m))
  {
    assert forall path: seq<Step> | path != [] ::
        UrlPosition(rules, Index(0), path) == UrlPosition(rules, path[0], path[1..])
        && Listed(Index(0), path) == path[|path| - 1].Index?;
  }

  /** An import is accepted exactly when every string in a URL position is an acceptable URL and
      the data stay within the limit, however deep they are. */
  lemma ValidatorAcceptsExactly(rules: Rules, m: map<string, Json>)
    requires rules.Ok()
    ensures ValidateMap(rules, m, 0) <==> UrlsValid(rules, m) && forall k | k in m :: WithinLimit(rules, k, m[k], 0)
  {
    hide HoldsFrom, UrlsValid;
    HoldsOfMap(rules, m);
    HoldsOfValue(rules, IsUrl, Index(0), Obj(m));
    forall k | k in m { ValidateValueMeaning(rules, Key(k), m[k], 0); }
  }

  /** For data nested below the limit only the URLs matter. */
  lemma ValidatorAcceptsIff(rules: Rules, m: map<string, Json>)
    requires rules.Ok() && BelowLimit(m)
    ensures ValidateMap(rules, m, 0) <==> UrlsValid(rules, m)
  {
    hide UrlsValid;
    ValidatorAcceptsExactly(rules, m);
    forall k | k in m { FitsIsWithin(rules, k, m[k], 0); }
  }

  // ----- Sanitizer against validator -----

  lemma {:induction false} StringFilters(rules: Rules, items: seq<Json>)
    ensures ValidStrings(rules, items) == OnlyStrings(items)
            <==> forall i | 0 <= i < |items| :: items[i].Str? ==> rules.validUrl(items[i].s)
    ensures |ValidStrings(rules, items)| <= |OnlyStrings(items)|
  {
    if items != [] {
      StringFilters(rules, items[1..]);
      var a, b := ValidStrings(rules, items[1..]), OnlyStrings(items[1..]);
      assert forall i | 1 <= i < |items| :: items[i] == items[1..][i - 1];
      if items[0].Str? && rules.validUrl(items[0].s) {
        assert ([items[0]] + a)[1..] == a && ([items[0]] + b)[1..] == b;
      }
    }
  }

  lemma {:induction false} SanitizeIsPruneValue(rules: Rules, key: string, v: Json, depth: nat)
    requires rules.Ok() && depth <= MAX_DEPTH && Fits(v, MAX_DEPTH - depth)
    ensures SanitizeValue(rules, key, v, depth) == PruneValue(rules, key, v) <==> ValidateValue(rules, key, v, depth)
    decreases v, 1
  {
    match v {
      case Obj(m) => SanitizeIsPruneMap(rules, m, depth + 1);
      case List(items) =>
        if rules.urlKey(key) {
          StringFilters(rules, items);
        } else {
          if items != [] {
            SanitizeIsPruneItems(rules, items, depth + 1);
          }
        }
      case _ =>
    }
  }

  lemma {:induction false} SanitizeIsPruneItems(rules: Rules, items: seq<Json>, depth: nat)
    requires rules.Ok() && depth <= MAX_DEPTH && forall i | 0 <= i < |items| :: Fits(items[i], MAX_DEPTH - depth)
    ensures SanitizeItems(rules, items, depth) == PruneItems(rules, items)
            <==> forall i | 0 <= i < |items| :: ValidateValue(rules, "", items[i], depth)
    ensures |SanitizeItems(rules, items, depth)| == |PruneItems(rules, items)|
    decreases items, 0
  {
    if items != [] {
      SanitizeIsPruneValue(rules, "", items[0], depth);
      SanitizeIsPruneItems(rules, items[1..], depth);
      var a, b := SanitizeItems(rules, items[1..], depth), PruneItems(rules, items[1..]);
      var x, y := SanitizeValue(rules, "", items[0], depth), PruneValue(rules, "", items[0]);
      assert forall i | 1 <= i < |items| :: items[i] == items[1..][i - 1];
      assert ([x.value] + a)[1..] == a && ([y.value] + b)[1..] == b;
      assert ([x.value] + a)[0] == x.value && ([y.value] + b)[0] == y.value;
    }
  }

  /** Below the limit, the sanitizer removes nothing but non-strings under URL-bearing keys
      exactly when the validator accepts. */
  lemma {:induction false} SanitizeIsPruneMap(rules: Rules, m: map<string, Json>, depth: nat)
    requires rules.Ok() && depth <= MAX_DEPTH && forall k | k in m :: Fits(m[k], MAX_DEPTH - depth)
    ensures SanitizeMap(rules, m, depth) == PruneMap(rules, m) <==> ValidateMap(rules, m, depth)
    decreases Obj(m), 0
  {
    forall k | k in m { SanitizeIsPruneValue(rules, k, m[k], depth); }
    var a, b := SanitizeMap(rules, m, depth), PruneMap(rules, m);
    if a == b {
      forall k | k in m ensures SanitizeValue(rules, k, m[k], depth) == PruneValue(rules, k, m[k]) {
        assert k in a <==> k in b;
      }
    }
  }

  /** Some map is walked at the deepest level the sanitizer still visits. */
  predicate MapAtLimit(rules: Rules, key: string, v: Json, depth: nat)
    decreases v
  {
    depth <= MAX_DEPTH &&
    match v
    case Obj(m) => depth == MAX_DEPTH || exists k | k in m :: MapAtLimit(rules, k, m[k], depth + 1)
    case List(items) => !rules.urlKey(key) && exists i | 0 <= i < |items| :: MapAtLimit(rules, "", items[i], depth + 1)
    case _ => false
  }

  lemma {:induction false} SanitizedValueAccepted(rules: Rules, key: string, v: Json, depth: nat)
    requires rules.Ok()
    ensures var w := SanitizeValue(rules, key, v, depth);
            w.Some? ==> (ValidateValue(rules, key, w.value, depth) <==> !MapAtLimit(rules, key, v, depth))
    decreases v, 1
  {
    if depth <= MAX_DEPTH {
      match v
      case Obj(m) =>
        SanitizedMapAccepted(rules, m, depth + 1);
      case List(items) =>
        if rules.urlKey(key) {
          ValidStringsAreUrls(rules, items);
        } else {
          SanitizedItemsAccepted(rules, items, depth + 1);
          var out := SanitizeItems(rules, items, depth + 1);
          assert (forall i | 0 <= i < |out| :: ValidateValue(rules, "", out[i], depth + 1))
              <==> (forall w | w in out :: ValidateValue(rules, "", w, depth + 1));
        }
      case _ =>
    }
  }

  lemma {:induction false} SanitizedItemsAccepted(rules: Rules, items: seq<Json>, depth: nat)
    requires rules.Ok()
    ensures (forall w | w in SanitizeItems(rules, items, depth) :: ValidateValue(rules, "", w, depth))
            <==> !(exists i | 0 <= i < |items| :: MapAtLimit(rules, "", items[i], depth))
    decreases items, 0
  {
    if items != [] {
      SanitizedValueAccepted(rules, "", items[0], depth);
      SanitizedItemsAccepted(rules, items[1..], depth);
      assert items == [items[0]] + items[1..];
      var kept := SanitizeValue(rules, "", items[0], depth);
      var out, rest := SanitizeItems(rules, items, depth), SanitizeItems(rules, items[1..], depth);
      assert forall w :: w in out <==> (kept.Some? && w == kept.value) || w in rest;
    }
  }

  /** The validator accepts what the sanitizer produced unless the input holds a map at the
      very limit: there the validator counts the map's own level and the sanitizer does not. */
  lemma {:induction false} SanitizedMapAccepted(rules: Rules, m: map<string, Json>, depth: nat)
    requires rules.Ok()
    ensures ValidateMap(rules, SanitizeMap(rules, m, depth), depth)
            <==> depth <= MAX_DEPTH && !(exists k | k in m :: MapAtLimit(rules, k, m[k], depth))
    decreases Obj(m), 0
  {
    var out := SanitizeMap(rules, m, depth);
    forall k | k in m
      ensures k !in out && depth <= MAX_DEPTH ==> !MapAtLimit(rules, k, m[k], depth)
      ensures k in out ==> (ValidateValue(rules, k, out[k], depth) <==> !MapAtLimit(rules, k, m[k], depth))
    {
      SanitizedValueAccepted(rules, k, m[k], depth);
    }
    assert forall k | k in out :: k in m;
  }

  lemma {:induction false} FitsHasNoMapAtLimit(rules: Rules, key: string, v: Json, depth: nat)
    requires depth <= MAX_DEPTH && Fits(v, MAX_DEPTH - depth)
    ensures !MapAtLimit(rules, key, v, depth)
    decreases v
  {
    match v
    case Obj(m) => forall k | k in m { FitsHasNoMapAtLimit(rules, k, m[k], depth + 1); }
    case List(items) => forall i | 0 <= i < |items| { FitsHasNoMapAtLimit(rules, "", items[i], depth + 1); }
    case _ =>
  }

  /** Below the limit the sanitizer's output always passes the import check. */
  lemma SanitizedAccepted(rules: Rules, m: map<string, Json>)
    requires rules.Ok() && BelowLimit(m)
    ensures ValidateMap(rules, SanitizeMap(rules, m, 0), 0)
  {
    forall k | k in m { FitsHasNoMapAtLimit(rules, k, m[k], 0); }
    SanitizedMapAccepted(rules, m, 0);
  }

  // ----- When the two traversals agree as the comment says -----

  lemma {:induction false} AllStrings(items: seq<Json>)
    ensures OnlyStrings(items) == items <==> forall i | 0 <= i < |items| :: items[i].Str?
    ensures |OnlyStrings(items)| <= |items|
  {
    if items != [] {
      AllStrings(items[1..]);
      assert items == [items[0]] + items[1..];
      assert forall i | 1 <= i < |items| :: items[i] == items[1..][i - 1];
      if items[0].Str? { assert ([items[0]] + OnlyStrings(items[1..]))[1..] == OnlyStrings(items[1..]); }
    }
  }

  lemma {:induction false} AllItemsKept(rules: Rules, items: seq<Json>)
    ensures PruneItems(rules, items) == items <==> forall i | 0 <= i < |items| ::
            PruneValue(rules, "", items[i]) == Some(items[i])
    ensures |PruneItems(rules, items)| <= |items|
  {
    if items != [] {
      AllItemsKept(rules, items[1..]);
      var kept, rest := PruneValue(rules, "", items[0]), PruneItems(rules, items[1..]);
      assert items == [items[0]] + items[1..];
      assert forall i | 1 <= i < |items| :: items[i] == items[1..][i - 1];
      if kept.Some? { assert ([kept.value] + rest)[0] == kept.value && ([kept.value] + rest)[1..] == rest; }
    }
  }

  lemma {:induction false} KeptIffStraight(rules: Rules, from: Step, v: Json)
    requires rules.Ok()
    ensures PruneValue(rules, KeyOf(from), v) == Some(v) <==> HoldsFrom(rules, IsStraight, from, v)
    decreases v
  {
    hide HoldsFrom;
    HoldsOfValue(rules, IsStraight, from, v);
    match v {
      case Obj(m) => forall k | k in m { KeptIffStraight(rules, Key(k), m[k]); } MapKept(rules, m);
      case List(items) =>
        if UrlStep(rules, from) {
          AllStrings(items);
        } else {
          forall i | 0 <= i < |items| { KeptIffStraight(rules, Index(i), items[i]); }
          AllItemsKept(rules, items);
        }
      case _ =>
    }
  }

  lemma MapKept(rules: Rules, m: map<string, Json>)
    ensures PruneMap(rules, m) == m <==> forall k | k in m :: PruneValue(rules, k, m[k]) == Some(m[k])
  {
    if PruneMap(rules, m) == m {
      forall k | k in m ensures PruneValue(rules, k, m[k]) == Some(m[k]) {
        assert k in PruneMap(rules, m);
      }
    }
  }

  /** Below the limit, "the check passes exactly if the sanitizer drops nothing" is true of just
      those data in which some URL is invalid or nothing but strings, lists and maps stands where
      URLs may. */
  lemma PassesIffUntouchedIff(rules: Rules, m: map<string, Json>)
    requires rules.Ok() && BelowLimit(m)
    ensures (ValidateMap(rules, m, 0) <==> SanitizeMap(rules, m, 0) == m)
            <==> (!UrlsValid(rules, m) || NoStray(rules, m))
  {
    hide UrlsValid, NoStray, HoldsFrom;
    ValidatorAcceptsIff(rules, m);
    SanitizeIsPruneMap(rules, m, 0);
    SanitizedAccepted(rules, m);
    HoldsOfMap(rules, m);
    HoldsOfValue(rules, IsStraight, Index(0), Obj(m));
    forall k | k in m { KeptIffStraight(rules, Key(k), m[k]); }
    MapKept(rules, m);
  }

  /** A null under a URL-bearing key passes the check, and the sanitizer drops it. */
  lemma StrayNullIsDropped(rules: Rules, key: string)
    requires rules.urlKey(key)
    ensures ValidateMap(rules, map[key := Null], 0) && SanitizeMap(rules, map[key := Null], 0) == map[]
  {
  }

  /** The two traversals part at the limit: an empty map there is kept by the one and
      rejected by the other. */
  lemma LimitDisagreement(rules: Rules, key: string)
    ensures SanitizeValue(rules, key, Obj(map[]), 32) == Some(Obj(map[]))
    ensures !ValidateValue(rules, key, Obj(map[]), 32)
  {
    var e: map<string, Json> := map[];
    assert SanitizeMap(rules, e, MAX_DEPTH + 1) == e;
    assert !ValidateMap(rules, e, MAX_DEPTH + 1);
  }
}
