/** The cell loop both scanners share: every `cell ( name ) {` header is visited in text
    order, the body of its group is delimited by brace counting, and the value made from
    the name and the body is stored under the name. A header whose body cannot be
    delimited is skipped, and a repeated name replaces the earlier value in its original
    position. The lemmas are stated for any way `f` of making a value from a name and a
    body; each scanner supplies its own. */
module CellScan {
  import opened Wrappers
  import opened Patterns
  import opened Braces
  import opened OrderedDicts

  /** The cell headers `cell ( name ) {` of the text, in text order. */
  function CellHeaders(content: string): (r: seq<Match>)
    ensures forall k :: 0 <= k < |r| ==> |r[k].groups| == 1 && r[k].end <= |content|
  {
    FindAllMatches(Header("cell"), content, 0);
    FindAll(Header("cell"), content)
  }

  /** One header with the body of its group: the cell is recorded when its body can be
      delimited, even if the body is empty. */
  function CellSite(content: string, m: Match): (r: Option<(string, string)>)
    requires |m.groups| == 1
    ensures r.Some? <==> MatchingBody(content, m.end).Some?
    ensures r.Some? ==> r.value.0 == HeaderName(m) && r.value.1 == MatchingBody(content, m.end).value
  {
    match MatchingBody(content, m.end)
    case None => None
    case Some(b) => Some((HeaderName(m), b))
  }

  function CellSites(content: string, ms: seq<Match>): (r: seq<Option<(string, string)>>)
    requires forall k :: 0 <= k < |ms| ==> |ms[k].groups| == 1
    ensures |r| == |ms| && forall k :: 0 <= k < |ms| ==> r[k] == CellSite(content, ms[k])
  {
    seq(|ms|, k requires 0 <= k < |ms| => CellSite(content, ms[k]))
  }

  /** Each cell name with the body the cell loop parses for it. */
  function CellBodies(content: string): ODict<string, string> {
    PutAll(Empty(), CellSites(content, CellHeaders(content)))
  }

  /** The values the cell loop stores for one text, made by `f`. */
  function TextValues<V>(content: string, f: (string, string) -> V): ODict<string, V> {
    MapValues(CellBodies(content), f)
  }

  /** A text without cell headers stores nothing. */
  lemma NoHeadersNoCells<V>(content: string, f: (string, string) -> V)
    requires CellHeaders(content) == []
    ensures TextValues(content, f).keys == [] && TextValues(content, f).vals == map[]
  {
    assert CellSites(content, CellHeaders(content)) == [];
  }

  /** A cell name is in the updated dictionary exactly when it was already there or some
      header with that name has a body. */
  lemma CellKeptIff<V>(content: string, d: ODict<string, V>, f: (string, string) -> V, name: string)
    ensures name in Update(d, TextValues(content, f)).vals <==>
      name in d.vals ||
      exists k :: 0 <= k < |CellHeaders(content)| && HeaderName(CellHeaders(content)[k]) == name &&
        MatchingBody(content, CellHeaders(content)[k].end).Some?
  {
    var ms := CellHeaders(content);
    var sites := CellSites(content, ms);
    PutAllHas(Empty(), sites, name);
    if Assigns(sites, name) {
      var k :| 0 <= k < |sites| && sites[k].Some? && sites[k].value.0 == name;
      assert HeaderName(ms[k]) == name;
    }
  }

  /** A repeated cell name keeps the value made from its last header with a body,
      whatever the dictionary held before. */
  lemma CellLastWins<V>(content: string, d: ODict<string, V>, f: (string, string) -> V, k: nat)
    requires k < |CellHeaders(content)| && MatchingBody(content, CellHeaders(content)[k].end).Some?
    requires forall j :: (k < j < |CellHeaders(content)| && MatchingBody(content, CellHeaders(content)[j].end).Some?) ==>
      HeaderName(CellHeaders(content)[j]) != HeaderName(CellHeaders(content)[k])
    ensures HeaderName(CellHeaders(content)[k]) in Update(d, TextValues(content, f)).vals
    ensures Update(d, TextValues(content, f)).vals[HeaderName(CellHeaders(content)[k])] ==
      f(HeaderName(CellHeaders(content)[k]), MatchingBody(content, CellHeaders(content)[k].end).value)
  {
    var ms := CellHeaders(content);
    LaterSitesDiffer(content, ms, k);
    assert TextValues(content, f) == MapValues(PutAll(Empty(), CellSites(content, ms)), f);
    UpdateLast(d, CellSites(content, ms), f, k);
  }

  /** Header `k` with a body is an assignment of its name, and no later assignment has
      that name when no later header with a body does. */
  lemma LaterSitesDiffer(content: string, ms: seq<Match>, k: nat)
    requires forall j :: 0 <= j < |ms| ==> |ms[j].groups| == 1
    requires k < |ms| && MatchingBody(content, ms[k].end).Some?
    requires forall j :: (k < j < |ms| && MatchingBody(content, ms[j].end).Some?) ==>
      HeaderName(ms[j]) != HeaderName(ms[k])
    ensures var sites := CellSites(content, ms);
      sites[k] == Some((HeaderName(ms[k]), MatchingBody(content, ms[k].end).value)) &&
      forall j :: k < j < |sites| ==> sites[j].None? || sites[j].value.0 != sites[k].value.0
  {
    var sites := CellSites(content, ms);
    forall j | k < j < |sites|
      ensures sites[j].None? || sites[j].value.0 != sites[k].value.0
    {
      assert sites[j] == CellSite(content, ms[j]);
    }
  }

  /** The dictionary after the first `i` headers, starting from `d`. */
  function StoredAfter<V>(content: string, d: ODict<string, V>, f: (string, string) -> V, ms: seq<Match>, i: nat): ODict<string, V>
    requires forall k :: 0 <= k < |ms| ==> |ms[k].groups| == 1
    requires i <= |ms|
  {
    Update(d, MapValues(PutAll(Empty(), CellSites(content, ms)[..i]), f))
  }

  /** One turn of the cell loop: the value is stored when the body exists. */
  lemma CellStep<V>(content: string, d: ODict<string, V>, f: (string, string) -> V, ms: seq<Match>, i: nat,
                    cells: ODict<string, V>, body: Option<string>)
    requires forall k :: 0 <= k < |ms| ==> |ms[k].groups| == 1
    requires i < |ms|
    requires cells == StoredAfter(content, d, f, ms, i)
    requires body == MatchingBody(content, ms[i].end)
    ensures body.Some? ==>
      Put(cells, HeaderName(ms[i]), f(HeaderName(ms[i]), body.value)) == StoredAfter(content, d, f, ms, i + 1)
    ensures body.None? ==> cells == StoredAfter(content, d, f, ms, i + 1)
  {
    var sites := CellSites(content, ms);
    var before := PutAll(Empty(), sites[..i]);
    PutAllSnoc(Empty(), sites, i);
    if body.Some? {
      var name := HeaderName(ms[i]);
      assert sites[i] == Some((name, body.value));
      MapValuesPut(before, name, body.value, f);
      UpdatePut(d, MapValues(before, f), name, f(name, body.value));
    } else {
      assert sites[i] == None;
    }
  }

  /** Before the loop nothing is stored; after the last header the dictionary is `d`
      updated with the text's values. */
  lemma StoredBounds<V>(content: string, d: ODict<string, V>, f: (string, string) -> V)
    ensures StoredAfter(content, d, f, CellHeaders(content), 0) == d
    ensures StoredAfter(content, d, f, CellHeaders(content), |CellHeaders(content)|) ==
      Update(d, TextValues(content, f))
  {
    var ms := CellHeaders(content);
    var sites := CellSites(content, ms);
    UpdateEmpty(d, MapValues(PutAll(Empty(), sites[..0]), f));
    assert sites[..|ms|] == sites;
  }

  /** A well-formed dictionary updated with the text's values stays well formed. */
  lemma TextValuesValid<V>(content: string, d: ODict<string, V>, f: (string, string) -> V)
    requires Valid(d)
    ensures Valid(Update(d, TextValues(content, f)))
  {
    PutAllValid(Empty<string, string>(), CellSites(content, CellHeaders(content)));
    UpdateValid(d, TextValues(content, f));
  }
}
