/** The listing's optional criteria (`search`, `role`, `country`) and the
    `WHERE` clause they build, as a list of typed conditions joined by AND
    rather than as query text. */
module Filters {
  import opened Wrappers
  import opened Text
  import opened Shipments

  datatype Condition =
    | NameContains(search: string)   // LOWER(name) LIKE LOWER('%search%')
    | RoleIs(role: Role)             // role = 'importer' | 'exporter'
    | CountryIs(country: string)     // country = '...'

  /** `req.query.x as string || ""`. */
  function Param(raw: Option<string>): string {
    raw.GetOr("")
  }

  /** The conditions pushed, in push order: a name condition for a non-empty
      search, a role condition only for the exact values "importer" and
      "exporter", a country condition for a non-empty country. */
  function BuildConditions(search: string, roleFilter: string, countryFilter: string): seq<Condition> {
    SearchCondition(search) + RoleCondition(roleFilter) + CountryCondition(countryFilter)
  }

  function SearchCondition(search: string): seq<Condition> {
    if search != "" then [NameContains(search)] else []
  }

  function RoleCondition(roleFilter: string): seq<Condition> {
    if roleFilter == "importer" then [RoleIs(Importer)]
    else if roleFilter == "exporter" then [RoleIs(Exporter)]
    else []
  }

  function CountryCondition(countryFilter: string): seq<Condition> {
    if countryFilter != "" then [CountryIs(countryFilter)] else []
  }

  /** The handler's criteria from its raw query parameters: only the search
      text is trimmed. */
  function Criteria(search: Option<string>, role: Option<string>, country: Option<string>): seq<Condition> {
    BuildConditions(Trim(Param(search)), Param(role), Param(country))
  }

  /** One condition on a listing row, with the search matched as a literal
      case-insensitive substring. */
  predicate Holds(c: Condition, name: string, country: string, role: Role) {
    match c
    case NameContains(t) => ContainsIgnoringCase(name, t)
    case RoleIs(r) => role == r
    case CountryIs(x) => country == x
  }

  /** The `WHERE` clause: every condition holds (no condition, no `WHERE`). */
  predicate MatchesAll(conds: seq<Condition>, name: string, country: string, role: Role) {
    forall i :: 0 <= i < |conds| ==> Holds(conds[i], name, country, role)
  }

  /** The rows the listing is meant to select, stated criterion by criterion:
      a blank search selects every name, any role text other than exactly
      "importer" or "exporter" selects both roles, an empty country selects
      every country, and the criteria combine with AND. */
  predicate Selects(search: string, roleFilter: string, countryFilter: string,
                    name: string, country: string, role: Role) {
    && (search == "" || ContainsIgnoringCase(name, search))
    && (roleFilter == "importer" ==> role == Importer)
    && (roleFilter == "exporter" ==> role == Exporter)
    && (countryFilter == "" || country == countryFilter)
  }

  /** The pushed conditions select exactly the rows `Selects` describes. */
  lemma ConditionsMeaning(search: string, roleFilter: string, countryFilter: string,
                          name: string, country: string, role: Role)
    ensures MatchesAll(BuildConditions(search, roleFilter, countryFilter), name, country, role) <==>
            Selects(search, roleFilter, countryFilter, name, country, role)
  {
    var s, r, c := search, roleFilter, countryFilter;
    MatchesAllConcat(SearchCondition(s) + RoleCondition(r), CountryCondition(c), name, country, role);
    MatchesAllConcat(SearchCondition(s), RoleCondition(r), name, country, role);
    SearchConditionMeaning(s, name, country, role);
    RoleConditionMeaning(r, name, country, role);
    CountryConditionMeaning(c, name, country, role);
  }

  lemma MatchesAllSingle(c: Condition, name: string, country: string, role: Role)
    ensures MatchesAll([c], name, country, role) <==> Holds(c, name, country, role)
  {
    assert [c][0] == c;
  }

  lemma SearchConditionMeaning(s: string, name: string, country: string, role: Role)
    ensures MatchesAll(SearchCondition(s), name, country, role) <==> (s == "" || ContainsIgnoringCase(name, s))
  {
    if s != "" { MatchesAllSingle(NameContains(s), name, country, role); }
  }

  lemma CountryConditionMeaning(c: string, name: string, country: string, role: Role)
    ensures MatchesAll(CountryCondition(c), name, country, role) <==> (c == "" || country == c)
  {
    if c != "" { MatchesAllSingle(CountryIs(c), name, country, role); }
  }

  lemma RoleConditionMeaning(r: string, name: string, country: string, role: Role)
    ensures MatchesAll(RoleCondition(r), name, country, role) <==>
              (r == "importer" ==> role == Importer) && (r == "exporter" ==> role == Exporter)
  {
    assert "importer"[0] != "exporter"[0];
    if r == "importer" {
      MatchesAllSingle(RoleIs(Importer), name, country, role);
    } else if r == "exporter" {
      MatchesAllSingle(RoleIs(Exporter), name, country, role);
    }
  }

  lemma MatchesAllConcat(a: seq<Condition>, b: seq<Condition>, name: string, country: string, role: Role)
    ensures MatchesAll(a + b, name, country, role) <==> MatchesAll(a, name, country, role) && MatchesAll(b, name, country, role)
  {
    if MatchesAll(a + b, name, country, role) {
      forall i | 0 <= i < |a| ensures Holds(a[i], name, country, role) { assert (a + b)[i] == a[i]; }
      forall i | 0 <= i < |b| ensures Holds(b[i], name, country, role) { assert (a + b)[|a| + i] == b[i]; }
    }
    if MatchesAll(a, name, country, role) && MatchesAll(b, name, country, role) {
      forall i | 0 <= i < |a + b| ensures Holds((a + b)[i], name, country, role) {
        if i < |a| { assert (a + b)[i] == a[i]; } else { assert (a + b)[i] == b[i - |a|]; }
      }
    }
  }

  /** With no criteria every row passes. */
  lemma NoCriteriaSelectsAll(name: string, country: string, role: Role)
    ensures Criteria(None, None, None) == []
    ensures MatchesAll(Criteria(None, None, None), name, country, role)
  {
    assert Trim("") == "";
  }

  // ---------------------------------------------------------------------------
  // The search condition as the query text states it. The search string is
  // spliced between `%` signs and handed to `LIKE`, which reads `%` and `_`
  // typed by the user as wildcards.

  /** SQL `LIKE`: `%` matches any run of characters, `_` any single character,
      every other pattern character itself. */
  predicate Like(text: string, pattern: string)
    decreases |text| + |pattern|
  {
    if pattern == [] then text == []
    else if pattern[0] == '%' then Like(text, pattern[1..]) || (text != [] && Like(text[1..], pattern))
    else text != [] && (pattern[0] == '_' || pattern[0] == text[0]) && Like(text[1..], pattern[1..])
  }

  predicate NoWildcards(s: string) {
    forall i :: 0 <= i < |s| ==> s[i] != '%' && s[i] != '_'
  }

  /** `LOWER(name) LIKE LOWER('%search%')`. */
  predicate SearchAsWritten(name: string, search: string) {
    Like(Lower(name), Lower("%" + search + "%"))
  }

  lemma {:induction false} LikeAnything(t: string)
    ensures Like(t, "%")
    decreases |t|
  {
    if t != [] { LikeAnything(t[1..]); }
  }

  /** A leading `%` lets the rest of the pattern match any suffix. */
  lemma {:induction false} LikeLeadingPercent(t: string, q: string)
    ensures Like(t, "%" + q) <==> exists i :: 0 <= i <= |t| && Like(t[i..], q)
    decreases |t|
  {
    var p := "%" + q;
    assert p[1..] == q;
    assert t[0..] == t;
    if t != [] {
      LikeLeadingPercent(t[1..], q);
      forall i | 0 <= i <= |t| - 1 ensures t[1..][i..] == t[i + 1..] { }
      if exists i :: 0 <= i <= |t| && Like(t[i..], q) {
        var i :| 0 <= i <= |t| && Like(t[i..], q);
        if i > 0 { assert Like(t[1..][i - 1..], q); }
      }
    }
  }

  /** A literal followed by `%` matches exactly the texts it is a prefix of. */
  lemma {:induction false} LikeLiteralPrefix(t: string, p: string)
    requires NoWildcards(p)
    ensures Like(t, p + "%") <==> |p| <= |t| && t[..|p|] == p
    decreases |p|
  {
    if p == [] {
      assert p + "%" == "%";
      LikeAnything(t);
    } else {
      assert (p + "%")[0] == p[0] && (p + "%")[1..] == p[1..] + "%";
      assert NoWildcards(p[1..]);
      if t != [] {
        LikeLiteralPrefix(t[1..], p[1..]);
        assert |p| <= |t| && t[..|p|] == p <==> t[0] == p[0] && |p[1..]| <= |t[1..]| && t[1..][..|p[1..]|] == p[1..] by {
          if |p| <= |t| {
            assert t[..|p|] == [t[0]] + t[1..][..|p[1..]|];
            assert p == [p[0]] + p[1..];
          }
        }
      }
    }
  }

  /** Without wildcards in the search text, `LIKE '%search%'` is exactly
      substring search. */
  lemma LikeIsSubstringWithoutWildcards(t: string, s: string)
    requires NoWildcards(s)
    ensures Like(t, "%" + s + "%") <==> Contains(t, s)
  {
    assert "%" + s + "%" == "%" + (s + "%");
    LikeLeadingPercent(t, s + "%");
    forall i | 0 <= i <= |t| ensures Like(t[i..], s + "%") <==> OccursAt(t, s, i) {
      LikeLiteralPrefix(t[i..], s);
      if |s| <= |t| - i { assert t[i..][..|s|] == t[i..i + |s|]; }
    }
  }

  /** The query text agrees with the literal substring condition whenever the
      search text has no `%` or `_`. */
  lemma SearchAsWrittenAgrees(name: string, search: string)
    requires NoWildcards(search)
    ensures SearchAsWritten(name, search) <==> Holds(NameContains(search), name, "", Importer)
  {
    var ls := Lower(search);
    assert Lower("%" + search + "%") == "%" + ls + "%";
    assert NoWildcards(ls);
    LikeIsSubstringWithoutWildcards(Lower(name), ls);
  }

  lemma AbcCorpMatches()
    ensures Like("abc corp", "a_c%")
  {
    LikeAnything(" corp");
    assert "c%"[1..] == "%" && "c corp"[1..] == " corp";
    assert Like("c corp", "c%");
    assert "_c%"[1..] == "c%" && "bc corp"[1..] == "c corp";
    assert Like("bc corp", "_c%");
    assert "a_c%"[1..] == "_c%" && "abc corp"[1..] == "bc corp";
  }

  lemma UnderscoreLikeMatches()
    ensures SearchAsWritten("ABC Corp", "a_c")
  {
    assert Lower("ABC Corp") == "abc corp";
    assert Lower("%" + "a_c" + "%") == "%a_c%";
    AbcCorpMatches();
    assert "%a_c%"[1..] == "a_c%";
  }

  lemma UnderscoreNotContained()
    ensures !Holds(NameContains("a_c"), "ABC Corp", "", Importer)
  {
    var name := Lower("ABC Corp");
    assert name == "abc corp";
    var needle := Lower("a_c");
    assert needle == "a_c";
    forall i ensures !OccursAt(name, needle, i) {
      if 0 <= i <= |name| - |needle| { assert name[i + 1] != '_'; }
    }
  }

  /** The query text lets an `_` typed in the search box match any character:
      searching "a_c" lists a company named "ABC Corp", whose name does not
      contain the text "a_c". */
  lemma UnderscoreMatchesAnyCharacter()
    ensures SearchAsWritten("ABC Corp", "a_c")
    ensures !Holds(NameContains("a_c"), "ABC Corp", "", Importer)
  {
    UnderscoreLikeMatches();
    UnderscoreNotContained();
  }
}
