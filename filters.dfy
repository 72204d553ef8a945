/**
 * The query filters built from request parameters by GET /api/search,
 * GET /api/adoptable-posts and GET /api/missing-posts, with the meaning a
 * document store gives them: which documents a filter selects.
 */
module Filters {
  import opened Wrappers

  /** The value a filter puts under a field name. */
  datatype Condition =
    | Equals(text: string)                   // { field: "text" }
    | OneOf(texts: seq<string>)              // { field: { $in: [...] } }
    | Pattern(regex: string, options: string) // { field: { $regex: ..., $options: ... } }
    | LessThan(bound: real)                  // { field: { $lt: bound } }
    | AtLeast(bound: real)                   // { field: { $gte: bound } }

  type Filter = map<string, Condition>

  /** { $and: [clause, ...] } */
  datatype Conjunction = And(clauses: seq<Filter>)

  /** A field value of a stored document; stored numbers are doubles, here exact reals. */
  datatype Field = Text(s: string) | Number(n: real)

  type Document = map<string, Field>

  /** A query-string parameter is truthy when it is present and not empty. */
  predicate Truthy(p: Option<string>) {
    p.Some? && p.value != ""
  }

  // ---------------------------------------------------------------------------
  // String helpers: toLowerCase and split(",")

  function LowerChar(c: char): char {
    if 'A' <= c <= 'Z' then (c as int + 32) as char else c
  }

  /** toLowerCase on the ASCII letters. */
  function Lower(s: string): (r: string)
    ensures |r| == |s|
    ensures forall i :: 0 <= i < |r| ==> !('A' <= r[i] <= 'Z')
    ensures forall i :: 0 <= i < |s| && !('A' <= s[i] <= 'Z') ==> r[i] == s[i]
    ensures forall i :: 0 <= i < |s| && 'A' <= s[i] <= 'Z' ==> r[i] as int == s[i] as int + 32
  {
    seq(|s|, i requires 0 <= i < |s| => LowerChar(s[i]))
  }

  /** Two characters are the same letter, or the same character, whatever their case. */
  predicate SameCharUpToCase(a: char, b: char) {
    || a == b
    || ('A' <= a <= 'Z' && b as int == a as int + 32)
    || ('A' <= b <= 'Z' && a as int == b as int + 32)
  }

  predicate SameUpToCase(a: string, b: string) {
    |a| == |b| && forall i :: 0 <= i < |a| ==> SameCharUpToCase(a[i], b[i])
  }

  /** Lower-casing two strings gives the same result exactly when they agree up to ASCII case. */
  lemma LowerEqualIffSameUpToCase(a: string, b: string)
    ensures Lower(a) == Lower(b) <==> SameUpToCase(a, b)
  {
    if Lower(a) == Lower(b) {
      forall i | 0 <= i < |a|
        ensures SameCharUpToCase(a[i], b[i])
      {
        assert Lower(a)[i] == Lower(b)[i];
      }
    }
    if SameUpToCase(a, b) {
      forall i | 0 <= i < |a|
        ensures Lower(a)[i] == Lower(b)[i]
      {
        assert SameCharUpToCase(a[i], b[i]);
      }
    }
  }

  /** String.prototype.split with a one-character separator: the pieces between separators, empty ones kept. */
  function Split(s: string, sep: char): (parts: seq<string>)
    ensures |parts| >= 1
    ensures forall i :: 0 <= i < |parts| ==> sep !in parts[i]
    decreases |s|
  {
    if |s| == 0 then [""]
    else
      var rest := Split(s[1..], sep);
      if s[0] == sep then [""] + rest
      else
        assert forall i :: 1 <= i < |rest| ==> ([[s[0]] + rest[0]] + rest[1..])[i] == rest[i];
        [[s[0]] + rest[0]] + rest[1..]
  }

  /** Array.prototype.join: the pieces with one separator between neighbours. */
  function Join(parts: seq<string>, sep: char): string
    requires |parts| >= 1
  {
    if |parts| == 1 then parts[0] else parts[0] + [sep] + Join(parts[1..], sep)
  }

  /** Joining the pieces of a split gives back the string. */
  lemma {:induction false} JoinSplit(s: string, sep: char)
    ensures Join(Split(s, sep), sep) == s
  {
    if |s| > 0 {
      var rest := Split(s[1..], sep);
      JoinSplit(s[1..], sep);
      if s[0] != sep && |rest| > 1 {
        assert ([[s[0]] + rest[0]] + rest[1..])[1..] == rest[1..];
      }
    }
  }

  lemma {:induction false} SplitSingle(x: string, sep: char)
    requires sep !in x
    ensures Split(x, sep) == [x]
  {
    if |x| > 0 {
      SplitSingle(x[1..], sep);
      assert [x[0]] + x[1..] == x;
    }
  }

  lemma {:induction false} SplitCons(x: string, r: string, sep: char)
    requires sep !in x
    ensures Split(x + [sep] + r, sep) == [x] + Split(r, sep)
  {
    if |x| == 0 {
      assert x + [sep] + r == [sep] + r;
      assert ([sep] + r)[1..] == r;
    } else {
      SplitCons(x[1..], r, sep);
      assert (x + [sep] + r)[1..] == x[1..] + [sep] + r;
      assert [x[0]] + x[1..] == x;
    }
  }

  /** Splitting a join of separator-free pieces gives back the pieces. */
  lemma {:induction false} SplitJoin(parts: seq<string>, sep: char)
    requires |parts| >= 1
    requires forall i :: 0 <= i < |parts| ==> sep !in parts[i]
    ensures Split(Join(parts, sep), sep) == parts
  {
    if |parts| == 1 {
      SplitSingle(parts[0], sep);
    } else {
      SplitJoin(parts[1..], sep);
      SplitCons(parts[0], Join(parts[1..], sep), sep);
    }
  }

  // ---------------------------------------------------------------------------
  // What a filter selects

  /** An anchored pattern "^body$" taken literally, compared without case under option "i". */
  predicate PatternMatches(regex: string, options: string, s: string) {
    && |regex| >= 2 && regex[0] == '^' && regex[|regex| - 1] == '$'
    && var body := regex[1..|regex| - 1];
       if options == "i" then Lower(s) == Lower(body) else s == body
  }

  predicate Admits(c: Condition, v: Field) {
    match c
    case Equals(t) => v == Text(t)
    case OneOf(ts) => v.Text? && v.s in ts
    case Pattern(re, opts) => v.Text? && PatternMatches(re, opts, v.s)
    case LessThan(b) => v.Number? && v.n < b
    case AtLeast(b) => v.Number? && v.n >= b
  }

  /** Every field the filter names is present in the document and admitted by its condition. */
  predicate Satisfies(d: Document, f: Filter) {
    forall k :: k in f ==> k in d && Admits(f[k], d[k])
  }

  predicate SatisfiesAll(d: Document, q: Conjunction) {
    forall i :: 0 <= i < |q.clauses| ==> Satisfies(d, q.clauses[i])
  }

  /** The document's field `k` holds the string `s`. */
  predicate HasText(d: Document, k: string, s: string) {
    k in d && d[k] == Text(s)
  }

  // ---------------------------------------------------------------------------
  // GET /api/adoptable-posts

  /**
   * { $and: [ { postType: "adoption" }, [{ postStatus: { $in: postStatus.split(",") } },] animalType ] }
   * where animalType is { animalType: animaltype } or, without the parameter, {} (which is truthy, so it is always pushed).
   */
  function AdoptableFilter(animaltype: Option<string>, postStatus: Option<string>): (q: Conjunction)
    ensures |q.clauses| == if Truthy(postStatus) then 3 else 2
    ensures q.clauses[0] == map["postType" := Equals("adoption")]
  {
    var animalClause: Filter := if Truthy(animaltype) then map["animalType" := Equals(animaltype.value)] else map[];
    var clauses := [map["postType" := Equals("adoption")]];
    var clauses := if Truthy(postStatus) then clauses + [map["postStatus" := OneOf(Split(postStatus.value, ','))]] else clauses;
    And(clauses + [animalClause])
  }

  /** The adoptable-posts filter selects the adoption posts with one of the listed status strings and the given animal type. */
  lemma AdoptableMeaning(animaltype: Option<string>, postStatus: Option<string>, d: Document)
    ensures SatisfiesAll(d, AdoptableFilter(animaltype, postStatus)) <==>
      && HasText(d, "postType", "adoption")
      && (Truthy(postStatus) ==> "postStatus" in d && d["postStatus"].Text? && d["postStatus"].s in Split(postStatus.value, ','))
      && (Truthy(animaltype) ==> HasText(d, "animalType", animaltype.value))
  {
    var q := AdoptableFilter(animaltype, postStatus);
    var n := |q.clauses|;
    assert Satisfies(d, q.clauses[0]) <==> HasText(d, "postType", "adoption");
    assert Satisfies(d, q.clauses[n - 1]) <==> (Truthy(animaltype) ==> HasText(d, "animalType", animaltype.value));
    if Truthy(postStatus) {
      assert Satisfies(d, q.clauses[1]) <==>
        "postStatus" in d && d["postStatus"].Text? && d["postStatus"].s in Split(postStatus.value, ',');
    }
  }

  // ---------------------------------------------------------------------------
  // GET /api/missing-posts

  /** { postType: "lost", ...animalType, ...postStatus }, each spread only when its parameter is truthy. */
  function MissingFilter(animaltype: Option<string>, postStatus: Option<string>): (f: Filter)
    ensures f.Keys <= {"postType", "animalType", "postStatus"}
    ensures "animalType" in f <==> Truthy(animaltype)
    ensures "postStatus" in f <==> Truthy(postStatus)
  {
    var animalType: Filter := if Truthy(animaltype) then map["animalType" := Equals(animaltype.value)] else map[];
    var status: Filter := if Truthy(postStatus) then map["postStatus" := Equals(postStatus.value)] else map[];
    map["postType" := Equals("lost")] + animalType + status
  }

  /** The missing-posts filter selects the lost posts with the given animal type and the given status string. */
  lemma MissingMeaning(animaltype: Option<string>, postStatus: Option<string>, d: Document)
    ensures Satisfies(d, MissingFilter(animaltype, postStatus)) <==>
      && HasText(d, "postType", "lost")
      && (Truthy(animaltype) ==> HasText(d, "animalType", animaltype.value))
      && (Truthy(postStatus) ==> HasText(d, "postStatus", postStatus.value))
  {
    var f := MissingFilter(animaltype, postStatus);
    assert "postType" in f && f["postType"] == Equals("lost");
    assert Truthy(animaltype) ==> f["animalType"] == Equals(animaltype.value);
    assert Truthy(postStatus) ==> f["postStatus"] == Equals(postStatus.value);
  }

  // ---------------------------------------------------------------------------
  // GET /api/search

  datatype SearchParams = SearchParams(
    location: Option<string>,
    age: Option<string>,
    color: Option<string>,
    animalType: Option<string>,
    postType: Option<string>,
    gender: Option<string>)

  /** The condition the age code selects: "0" is younger than 5, "1" is 5 or older, anything else nothing. */
  function AgeCondition(age: Option<string>): (c: Option<Condition>)
    ensures c.Some? <==> age == Some("0") || age == Some("1")
    ensures forall n :: c.Some? ==> (Admits(c.value, Number(n)) <==> (n < 5.0 <==> age == Some("0")))
  {
    if age.None? then None
    else if age.value == "0" then Some(LessThan(5.0))
    else if age.value == "1" then Some(AtLeast(5.0))
    else None
  }

  /** The search filter, one key per truthy parameter (age: per recognised code). */
  function SearchFilter(p: SearchParams): (f: Filter)
    ensures f.Keys <= {"location", "color", "animalType", "gender", "postType", "age"}
    ensures "location" in f <==> Truthy(p.location)
    ensures "color" in f <==> Truthy(p.color)
    ensures "animalType" in f <==> Truthy(p.animalType)
    ensures "gender" in f <==> Truthy(p.gender)
    ensures "postType" in f <==> Truthy(p.postType)
    ensures "age" in f <==> p.age == Some("0") || p.age == Some("1")
  {
    var f: Filter := map[];
    var f := if Truthy(p.location) then f["location" := Pattern("^" + p.location.value + "$", "i")] else f;
    var f := if Truthy(p.color) then f["color" := Pattern("^" + p.color.value + "$", "i")] else f;
    var f := if Truthy(p.animalType) then f["animalType" := Equals(Lower(p.animalType.value))] else f;
    var f := if Truthy(p.gender) then f["gender" := Equals(Lower(p.gender.value))] else f;
    var f := if Truthy(p.postType) then f["postType" := Equals(p.postType.value)] else f;
    var age := AgeCondition(p.age);
    if age.Some? then f["age" := age.value] else f
  }

  /** The anchored, case-insensitive pattern built from `x` selects the strings equal to `x` up to case. */
  lemma AnchoredPattern(x: string, s: string)
    ensures Admits(Pattern("^" + x + "$", "i"), Text(s)) <==> Lower(s) == Lower(x)
  {
    var re := "^" + x + "$";
    assert re[1..|re| - 1] == x;
  }

  /** Field `k` of the document meets what the filter puts under `k`, if anything. */
  predicate FieldMeets(d: Document, f: Filter, k: string) {
    k in f ==> k in d && Admits(f[k], d[k])
  }

  lemma SearchFields(p: SearchParams, d: Document)
    ensures Satisfies(d, SearchFilter(p)) <==>
      && FieldMeets(d, SearchFilter(p), "location") && FieldMeets(d, SearchFilter(p), "color")
      && FieldMeets(d, SearchFilter(p), "animalType") && FieldMeets(d, SearchFilter(p), "gender")
      && FieldMeets(d, SearchFilter(p), "postType") && FieldMeets(d, SearchFilter(p), "age")
  {
    var f := SearchFilter(p);
    var keys := {"location", "color", "animalType", "gender", "postType", "age"};
    assert f.Keys <= keys;
    if forall k :: k in keys ==> FieldMeets(d, f, k) {
      forall k | k in f
        ensures k in d && Admits(f[k], d[k])
      {
        assert FieldMeets(d, f, k);
      }
    }
  }

  lemma LocationMeets(p: SearchParams, d: Document)
    ensures FieldMeets(d, SearchFilter(p), "location") <==>
      (Truthy(p.location) ==> "location" in d && d["location"].Text? && Lower(d["location"].s) == Lower(p.location.value))
  {
    if Truthy(p.location) {
      assert SearchFilter(p)["location"] == Pattern("^" + p.location.value + "$", "i");
      if "location" in d && d["location"].Text? {
        AnchoredPattern(p.location.value, d["location"].s);
      }
    }
  }

  lemma ColorMeets(p: SearchParams, d: Document)
    ensures FieldMeets(d, SearchFilter(p), "color") <==>
      (Truthy(p.color) ==> "color" in d && d["color"].Text? && Lower(d["color"].s) == Lower(p.color.value))
  {
    if Truthy(p.color) {
      assert SearchFilter(p)["color"] == Pattern("^" + p.color.value + "$", "i");
      if "color" in d && d["color"].Text? {
        AnchoredPattern(p.color.value, d["color"].s);
      }
    }
  }

  lemma EqualityFieldsMeet(p: SearchParams, d: Document)
    ensures FieldMeets(d, SearchFilter(p), "animalType") <==> (Truthy(p.animalType) ==> HasText(d, "animalType", Lower(p.animalType.value)))
    ensures FieldMeets(d, SearchFilter(p), "gender") <==> (Truthy(p.gender) ==> HasText(d, "gender", Lower(p.gender.value)))
    ensures FieldMeets(d, SearchFilter(p), "postType") <==> (Truthy(p.postType) ==> HasText(d, "postType", p.postType.value))
  {
    var f := SearchFilter(p);
    if Truthy(p.animalType) {
      assert f["animalType"] == Equals(Lower(p.animalType.value));
    }
    if Truthy(p.gender) {
      assert f["gender"] == Equals(Lower(p.gender.value));
    }
    if Truthy(p.postType) {
      assert f["postType"] == Equals(p.postType.value);
    }
  }

  lemma AgeMeets(p: SearchParams, d: Document)
    ensures FieldMeets(d, SearchFilter(p), "age") <==>
      && (p.age == Some("0") ==> "age" in d && d["age"].Number? && d["age"].n < 5.0)
      && (p.age == Some("1") ==> "age" in d && d["age"].Number? && d["age"].n >= 5.0)
  {
    if p.age == Some("0") {
      assert SearchFilter(p)["age"] == LessThan(5.0);
    }
    if p.age == Some("1") {
      assert SearchFilter(p)["age"] == AtLeast(5.0);
    }
  }

  /** The search filter selects, field by field, what each truthy parameter asks for. */
  lemma SearchMeaning(p: SearchParams, d: Document)
    ensures Satisfies(d, SearchFilter(p)) <==>
      && (Truthy(p.location) ==> "location" in d && d["location"].Text? && Lower(d["location"].s) == Lower(p.location.value))
      && (Truthy(p.color) ==> "color" in d && d["color"].Text? && Lower(d["color"].s) == Lower(p.color.value))
      && (Truthy(p.animalType) ==> HasText(d, "animalType", Lower(p.animalType.value)))
      && (Truthy(p.gender) ==> HasText(d, "gender", Lower(p.gender.value)))
      && (Truthy(p.postType) ==> HasText(d, "postType", p.postType.value))
      && (p.age == Some("0") ==> "age" in d && d["age"].Number? && d["age"].n < 5.0)
      && (p.age == Some("1") ==> "age" in d && d["age"].Number? && d["age"].n >= 5.0)
  {
    SearchFields(p, d);
    LocationMeets(p, d);
    ColorMeets(p, d);
    EqualityFieldsMeet(p, d);
    AgeMeets(p, d);
  }

  /**
   * A given animal type or gender is matched without regard to the case the request
   * used; each holds on its own, whatever the other parameters are.
   */
  lemma SearchIgnoresCase(p: SearchParams, animalType: string, gender: string)
    ensures Truthy(p.animalType) && SameUpToCase(animalType, p.animalType.value) ==>
      SearchFilter(p.(animalType := Some(animalType))) == SearchFilter(p)
    ensures Truthy(p.gender) && SameUpToCase(gender, p.gender.value) ==>
      SearchFilter(p.(gender := Some(gender))) == SearchFilter(p)
  {
    if Truthy(p.animalType) && SameUpToCase(animalType, p.animalType.value) {
      LowerEqualIffSameUpToCase(animalType, p.animalType.value);
      assert animalType != "";
    }
    if Truthy(p.gender) && SameUpToCase(gender, p.gender.value) {
      LowerEqualIffSameUpToCase(gender, p.gender.value);
      assert gender != "";
    }
  }

  /** A search without parameters selects every document. */
  lemma EmptySearch(d: Document)
    ensures SearchFilter(SearchParams(None, None, None, None, None, None)) == map[]
    ensures Satisfies(d, SearchFilter(SearchParams(None, None, None, None, None, None)))
  {
  }
}
