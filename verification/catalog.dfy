/** Construction of the country pool from the raw records the countries
    API returns: a filter per region group, Americas before Northern
    Europe, each record projected to `{name, flag, capital}`. */
module Catalog {
  import opened Text

  /** The raster flag must come from this fixed-resolution host path. */
  const FlagCdnPrefix: string := "https://flagcdn.com/w320/"

  /** The fields of one API record that the filter reads. A field the
      record lacks is modelled as the empty string (or, for `capitals`,
      the empty list): JavaScript treats both `undefined` and `""` as
      false in the filter's tests. */
  datatype RawCountry = RawCountry(
    commonName: string,      // name.common
    svgFlag: string,         // flags.svg
    capitals: seq<string>,   // capital
    pngFlag: string,         // flags.png
    subregion: string)

  /** One pool entry. */
  datatype Country = Country(name: string, flag: string, capital: string)

  /** The two filters of the source, in the order their results are joined. */
  datatype Group = Americas | NorthernEurope

  predicate InGroup(subregion: string, g: Group) {
    match g
    case Americas =>
      subregion == "Northern America" || subregion == "Central America" || subregion == "South America"
    case NorthernEurope =>
      subregion == "Northern Europe"
  }

  /** The field tests both filters share. */
  predicate HasUsableData(c: RawCountry) {
    && |c.commonName| > 0
    && |c.svgFlag| > 0
    && |c.capitals| > 0 && |c.capitals[0]| > 0
    && |c.pngFlag| > 0 && Includes(c.pngFlag, FlagCdnPrefix)
  }

  predicate Qualifies(c: RawCountry, g: Group) {
    HasUsableData(c) && InGroup(c.subregion, g)
  }

  /** The record passes one of the two filters. */
  predicate Admissible(c: RawCountry) {
    Qualifies(c, Americas) || Qualifies(c, NorthernEurope)
  }

  /** `data.filter(...)` for one group: exactly the qualifying records,
      never more than the input. */
  function Select(data: seq<RawCountry>, g: Group): (r: seq<RawCountry>)
    ensures |r| <= |data|
    ensures forall x :: x in r ==> x in data && Qualifies(x, g)
    ensures forall x :: x in data && Qualifies(x, g) ==> x in r
    ensures forall k :: 0 <= k < |r| ==> Qualifies(r[k], g)
  {
    if |data| == 0 then []
    else (if Qualifies(data[0], g) then [data[0]] else []) + Select(data[1..], g)
  }

  /** Filtering keeps source order: it distributes over concatenation. */
  lemma {:induction false} SelectAppend(a: seq<RawCountry>, b: seq<RawCountry>, g: Group)
    ensures Select(a + b, g) == Select(a, g) + Select(b, g)
  {
    if |a| > 0 {
      assert (a + b)[1..] == a[1..] + b;
      SelectAppend(a[1..], b, g);
    } else {
      assert a + b == b;
    }
  }

  /** A record that passes the two filters does so for one group only. */
  lemma GroupsDisjoint(c: RawCountry)
    ensures !(Qualifies(c, Americas) && Qualifies(c, NorthernEurope))
  {
  }

  /** Together the two filters keep no more records than the input holds. */
  lemma {:induction false} SelectionsFit(data: seq<RawCountry>)
    ensures |Select(data, Americas)| + |Select(data, NorthernEurope)| <= |data|
  {
    if |data| > 0 {
      SelectionsFit(data[1..]);
      GroupsDisjoint(data[0]);
    }
  }

  /** The `.map` step: keep the common name, the vector flag and the first capital. */
  function Project(c: RawCountry): Country
    requires |c.capitals| > 0
  {
    Country(c.commonName, c.svgFlag, c.capitals[0])
  }

  function ProjectAll(rs: seq<RawCountry>): (cs: seq<Country>)
    requires forall x :: x in rs ==> |x.capitals| > 0
    ensures |cs| == |rs|
    ensures forall k :: 0 <= k < |rs| ==> cs[k] == Project(rs[k])
  {
    seq(|rs|, k requires 0 <= k < |rs| => Project(rs[k]))
  }

  /** A pool entry with the non-empty name, flag and capital every
      question relies on. */
  predicate WellFormed(c: Country) {
    |c.name| > 0 && |c.flag| > 0 && |c.capital| > 0
  }

  /** The pool: the projected records of the Americas filter, followed by
      the projected records of the Northern Europe filter; every entry is
      well formed. */
  function BuildPool(data: seq<RawCountry>): (pool: seq<Country>)
    ensures |pool| == |Select(data, Americas)| + |Select(data, NorthernEurope)|
    ensures pool[..|Select(data, Americas)|] == ProjectAll(Select(data, Americas))
    ensures pool[|Select(data, Americas)|..] == ProjectAll(Select(data, NorthernEurope))
    ensures forall k :: 0 <= k < |pool| ==> WellFormed(pool[k])
  {
    var americas := Select(data, Americas);
    var europe := Select(data, NorthernEurope);
    var pool := ProjectAll(americas + europe);
    assert pool[..|americas|] == ProjectAll(americas);
    assert pool[|americas|..] == ProjectAll(europe);
    pool
  }

  /** A country is in the pool exactly when some record that passes one of
      the filters projects to it. */
  lemma PoolMembership(data: seq<RawCountry>)
    ensures forall c :: c in BuildPool(data) <==> exists x :: x in data && Admissible(x) && Project(x) == c
  {
    var americas := Select(data, Americas);
    var europe := Select(data, NorthernEurope);
    assert BuildPool(data) == ProjectAll(americas + europe);
  }

  /** The pool is never longer than the raw data. */
  lemma PoolFitsData(data: seq<RawCountry>)
    ensures |BuildPool(data)| <= |data|
  {
    SelectionsFit(data);
  }

  /** A pool is empty exactly when no raw record passes either filter. */
  lemma EmptyPoolIff(data: seq<RawCountry>)
    ensures BuildPool(data) == [] <==> forall x :: x in data ==> !Admissible(x)
  {
    PoolMembership(data);
    if BuildPool(data) != [] {
      var c := BuildPool(data)[0];
      assert c in BuildPool(data);
    }
  }

  lemma IndexIn(s: seq<RawCountry>, x: RawCountry) returns (k: nat)
    requires x in s
    ensures k < |s| && s[k] == x
  {
    k :| k < |s| && s[k] == x;
  }

  /** The `k`-th record the Americas filter keeps is the pool's `k`-th entry. */
  lemma AmericasEntry(data: seq<RawCountry>, k: nat)
    requires k < |Select(data, Americas)|
    ensures BuildPool(data)[k] == Project(Select(data, Americas)[k])
  {
    var pool, split := BuildPool(data), |Select(data, Americas)|;
    assert pool[k] == pool[..split][k];
  }

  /** The `k`-th record the Northern Europe filter keeps follows all the
      Americas entries, at position `|americas| + k`. */
  lemma EuropeEntry(data: seq<RawCountry>, k: nat)
    requires k < |Select(data, NorthernEurope)|
    ensures BuildPool(data)[|Select(data, Americas)| + k] == Project(Select(data, NorthernEurope)[k])
  {
    var pool, split := BuildPool(data), |Select(data, Americas)|;
    assert pool[split + k] == pool[split..][k];
  }

  /** Where the entries of two joined sequences land. */
  lemma AppendIndex(x: seq<RawCountry>, y: seq<RawCountry>, i: nat, j: nat)
    requires i < |x| && j < |y|
    ensures |x + y| == |x| + |y|
    ensures (x + y)[i] == x[i] && (x + y)[|x| + j] == y[j]
  {
  }

  /** Of two qualifying records, the filter keeps the earlier one earlier. */
  lemma SelectKeepsOrder(data: seq<RawCountry>, p: nat, q: nat, g: Group) returns (a: nat, b: nat)
    requires p < q < |data|
    requires Qualifies(data[p], g) && Qualifies(data[q], g)
    ensures a < b < |Select(data, g)|
    ensures Select(data, g)[a] == data[p] && Select(data, g)[b] == data[q]
  {
    var front, back := data[..q], data[q..];
    assert data == front + back;
    SelectAppend(front, back, g);
    var early, late := Select(front, g), Select(back, g);
    assert Select(data, g) == early + late;
    assert data[p] == front[p] && data[q] == back[0];
    var i := IndexIn(early, data[p]);
    var j := IndexIn(late, data[q]);
    AppendIndex(early, late, i, j);
    a, b := i, |early| + j;
  }

  /** Americas records come first: any qualifying Americas record lands
      in the pool before any qualifying Northern Europe record, whatever
      their order in the raw data. */
  lemma AmericasBeforeEurope(data: seq<RawCountry>, x: RawCountry, y: RawCountry)
    requires x in data && Qualifies(x, Americas)
    requires y in data && Qualifies(y, NorthernEurope)
    ensures exists i, j ::
      (0 <= i < j < |BuildPool(data)| &&
       BuildPool(data)[i] == Project(x) && BuildPool(data)[j] == Project(y))
  {
    var i := IndexIn(Select(data, Americas), x);
    var k := IndexIn(Select(data, NorthernEurope), y);
    AmericasEntry(data, i);
    EuropeEntry(data, k);
  }

  /** Within a group the pool keeps source order: of two qualifying
      records of the same group, the earlier one lands earlier. */
  lemma SourceOrderWithinGroup(data: seq<RawCountry>, p: nat, q: nat, g: Group)
    requires p < q < |data|
    requires Qualifies(data[p], g) && Qualifies(data[q], g)
    ensures exists i, j ::
      (0 <= i < j < |BuildPool(data)| &&
       BuildPool(data)[i] == Project(data[p]) && BuildPool(data)[j] == Project(data[q]))
  {
    var a, b := SelectKeepsOrder(data, p, q, g);
    if g == Americas {
      AmericasEntry(data, a);
      AmericasEntry(data, b);
    } else {
      EuropeEntry(data, a);
      EuropeEntry(data, b);
    }
  }
}
