/** The sanitizer removes what it must and nothing else: its output is the greatest harmless part
    of the data, at every depth. */
module SafeParts {
  import opened Domain
  import opened RemoteData

  // ----- Parts: what is left when fields and list elements are removed -----

  ghost predicate Part(x: Json, y: Json)
    decreases y, 1
  {
    match y
    case Obj(b) => x.Obj? && MapPart(x.fields, b)
    case List(q) => x.List? && ListPart(x.items, q)
    case _ => x == y
  }

  ghost predicate MapPart(a: map<string, Json>, b: map<string, Json>)
    decreases Obj(b), 0
  {
    forall k | k in a :: k in b && Part(a[k], b[k])
  }

  ghost predicate ListPart(p: seq<Json>, q: seq<Json>)
    decreases q, 0
  {
    p == [] || (q != [] && ((Part(p[0], q[0]) && ListPart(p[1..], q[1..])) || ListPart(p, q[1..])))
  }

  /** No value that is looked at lies beyond the limit. */
  predicate Shallow(rules: Rules, key: string, v: Json, depth: nat)
    decreases v
  {
    depth <= 32 &&
    match v
    case Obj(m) => forall k | k in m :: Shallow(rules, k, m[k], depth + 1)
    case List(items) => rules.urlKey(key) || forall i | 0 <= i < |items| :: Shallow(rules, "", items[i], depth + 1)
    case _ => true
  }

  ghost predicate Harmless(rules: Rules, key: string, v: Json, depth: nat) {
    Clean(rules, key, v) && Shallow(rules, key, v, depth)
  }

  ghost predicate HarmlessMap(rules: Rules, m: map<string, Json>, depth: nat) {
    forall k | k in m :: Harmless(rules, k, m[k], depth)
  }

  // ----- The output is a harmless part -----

  lemma {:induction false} ValidStringsPart(rules: Rules, items: seq<Json>)
    ensures ListPart(ValidStrings(rules, items), items)
    ensures forall i | 0 <= i < |ValidStrings(rules, items)| ::
              ValidStrings(rules, items)[i].Str? && rules.validUrl(ValidStrings(rules, items)[i].s)
  {
    if items != [] {
      ValidStringsPart(rules, items[1..]);
      var rest := ValidStrings(rules, items[1..]);
      if items[0].Str? && rules.validUrl(items[0].s) { assert ([items[0]] + rest)[1..] == rest; }
    }
  }

  lemma {:induction false} ValueIsHarmlessPart(rules: Rules, key: string, v: Json, depth: nat)
    requires rules.Ok()
    ensures var w := SanitizeValue(rules, key, v, depth);
            w.Some? ==> Part(w.value, v) && Harmless(rules, key, w.value, depth)
    decreases v, 1
  {
    if depth <= MAX_DEPTH {
      match v {
        case Obj(m) => MapIsHarmlessPart(rules, m, depth + 1);
        case List(items) =>
          if rules.urlKey(key) {
            ValidStringsPart(rules, items);
          } else {
            ItemsAreHarmlessPart(rules, items, depth + 1);
          }
        case _ =>
      }
    }
  }

  lemma {:induction false} ItemsAreHarmlessPart(rules: Rules, items: seq<Json>, depth: nat)
    requires rules.Ok()
    ensures var out := SanitizeItems(rules, items, depth);
            ListPart(out, items) && forall i | 0 <= i < |out| :: Harmless(rules, "", out[i], depth)
    decreases items, 0
  {
    if items != [] {
      ValueIsHarmlessPart(rules, "", items[0], depth);
      ItemsAreHarmlessPart(rules, items[1..], depth);
      var kept, rest := SanitizeValue(rules, "", items[0], depth), SanitizeItems(rules, items[1..], depth);
      if kept.Some? { assert ([kept.value] + rest)[1..] == rest; }
    }
  }

  lemma {:induction false} MapIsHarmlessPart(rules: Rules, m: map<string, Json>, depth: nat)
    requires rules.Ok()
    ensures var out := SanitizeMap(rules, m, depth); MapPart(out, m) && HarmlessMap(rules, out, depth)
    decreases Obj(m), 0
  {
    forall k | k in m { ValueIsHarmlessPart(rules, k, m[k], depth); }
  }

  // ----- Every harmless part is part of the output -----

  lemma {:induction false} UrlsArePart(rules: Rules, p: seq<Json>, items: seq<Json>)
    requires ListPart(p, items) && forall i | 0 <= i < |p| :: p[i].Str? && rules.validUrl(p[i].s)
    ensures ListPart(p, ValidStrings(rules, items))
    decreases items
  {
    if p != [] {
      var rest := ValidStrings(rules, items[1..]);
      var out := ValidStrings(rules, items);
      if Part(p[0], items[0]) && ListPart(p[1..], items[1..]) {
        UrlsArePart(rules, p[1..], items[1..]);
        assert p[0] == items[0] && out == [items[0]] + rest && out[1..] == rest;
      } else {
        UrlsArePart(rules, p, items[1..]);
        if out != rest { assert out[1..] == rest; }
      }
    }
  }

  lemma {:induction false} HarmlessIsKept(rules: Rules, key: string, x: Json, v: Json, depth: nat)
    requires Part(x, v) && Harmless(rules, key, x, depth)
    ensures var w := SanitizeValue(rules, key, v, depth); w.Some? && Part(x, w.value)
    decreases v, 1
  {
    match v {
      case Obj(m) => HarmlessMapIsKept(rules, x.fields, m, depth + 1);
      case List(items) =>
        if rules.urlKey(key) {
          UrlsArePart(rules, x.items, items);
        } else {
          HarmlessItemsAreKept(rules, x.items, items, depth + 1);
        }
      case _ =>
    }
  }

  lemma {:induction false} HarmlessItemsAreKept(rules: Rules, p: seq<Json>, items: seq<Json>, depth: nat)
    requires ListPart(p, items) && forall i | 0 <= i < |p| :: Harmless(rules, "", p[i], depth)
    ensures ListPart(p, SanitizeItems(rules, items, depth))
    decreases items, 0
  {
    if p != [] {
      var kept, rest := SanitizeValue(rules, "", items[0], depth), SanitizeItems(rules, items[1..], depth);
      var out := SanitizeItems(rules, items, depth);
      if kept.Some? { assert out == [kept.value] + rest && out[1..] == rest; }
      if Part(p[0], items[0]) && ListPart(p[1..], items[1..]) {
        HarmlessIsKept(rules, "", p[0], items[0], depth);
        HarmlessItemsAreKept(rules, p[1..], items[1..], depth);
      } else {
        HarmlessItemsAreKept(rules, p, items[1..], depth);
      }
    }
  }

  lemma {:induction false} HarmlessMapIsKept(rules: Rules, x: map<string, Json>, m: map<string, Json>, depth: nat)
    requires MapPart(x, m) && HarmlessMap(rules, x, depth)
    ensures MapPart(x, SanitizeMap(rules, m, depth))
    decreases Obj(m), 0
  {
    forall k | k in x ensures k in SanitizeMap(rules, m, depth) && Part(x[k], SanitizeMap(rules, m, depth)[k]) {
      HarmlessIsKept(rules, k, x[k], m[k], depth);
    }
  }

  // ----- The greatest one -----

  /** `out` is a harmless part of m, and has every harmless part of m as a part. */
  ghost predicate GreatestHarmlessPart(rules: Rules, out: map<string, Json>, m: map<string, Json>, depth: nat) {
    && MapPart(out, m) && HarmlessMap(rules, out, depth)
    && forall x | MapPart(x, m) && HarmlessMap(rules, x, depth) :: MapPart(x, out)
  }

  /** The sanitizer keeps as much as can be kept, for every input and at every depth. */
  lemma SanitizedIsGreatest(rules: Rules, m: map<string, Json>, depth: nat)
    requires rules.Ok()
    ensures GreatestHarmlessPart(rules, SanitizeMap(rules, m, depth), m, depth)
  {
    MapIsHarmlessPart(rules, m, depth);
    hide MapPart, HarmlessMap, SanitizeMap;
    forall x | MapPart(x, m) && HarmlessMap(rules, x, depth) ensures MapPart(x, SanitizeMap(rules, m, depth)) {
      HarmlessMapIsKept(rules, x, m, depth);
    }
  }

  lemma {:induction false} ListPartSize(p: seq<Json>, q: seq<Json>)
    requires ListPart(p, q)
    ensures |p| <= |q|
    ensures |p| == |q| ==> forall i | 0 <= i < |q| :: Part(p[i], q[i])
    decreases q
  {
    if p != [] {
      if Part(p[0], q[0]) && ListPart(p[1..], q[1..]) {
        ListPartSize(p[1..], q[1..]);
        forall i | 0 <= i < |q| && |p| == |q| ensures Part(p[i], q[i]) {
          if i > 0 { assert p[1..][i - 1] == p[i] && q[1..][i - 1] == q[i]; }
        }
      } else {
        ListPartSize(p, q[1..]);
      }
    }
  }

  lemma {:induction false} PartsOfEachOther(x: Json, y: Json)
    requires Part(x, y) && Part(y, x)
    ensures x == y
    decreases y
  {
    match y {
      case Obj(b) =>
        forall k | k in b ensures k in x.fields && x.fields[k] == b[k] { PartsOfEachOther(x.fields[k], b[k]); }
      case List(q) =>
        ListPartSize(x.items, q);
        ListPartSize(q, x.items);
        forall i | 0 <= i < |q| ensures x.items[i] == q[i] { PartsOfEachOther(x.items[i], q[i]); }
      case _ =>
    }
  }

  /** There is only one greatest harmless part, so this says all there is to say. */
  lemma GreatestIsSanitized(rules: Rules, out: map<string, Json>, m: map<string, Json>, depth: nat)
    requires rules.Ok() && GreatestHarmlessPart(rules, out, m, depth)
    ensures out == SanitizeMap(rules, m, depth)
  {
    SanitizedIsGreatest(rules, m, depth);
    PartsOfEachOther(Obj(out), Obj(SanitizeMap(rules, m, depth)));
  }
}
