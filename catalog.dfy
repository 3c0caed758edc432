/** Release lookup in the version catalog (main.py:26-33). */
module Catalog {
  import opened Schema

  /** Entry `i` is the first one of `catalog` whose id is `id`. */
  predicate FirstMatchAt(catalog: seq<CatalogEntry>, id: string, i: int)
  {
    0 <= i < |catalog| && catalog[i].id == id && forall j :: 0 <= j < i ==> catalog[j].id != id
  }

  /** `get_version`: the `url` of the first entry whose `id` equals `id`, or
      None (Python's `False`) when no entry matches. */
  function GetVersion(catalog: seq<CatalogEntry>, id: string): (url: Option<string>)
    ensures url.None? <==> forall i :: 0 <= i < |catalog| ==> catalog[i].id != id
    ensures url.Some? ==> exists i :: FirstMatchAt(catalog, id, i) && url.value == catalog[i].url
    decreases |catalog|
  {
    if |catalog| == 0 then None
    else if catalog[0].id == id then
      assert FirstMatchAt(catalog, id, 0);
      Some(catalog[0].url)
    else
      var url := GetVersion(catalog[1..], id);
      assert url.Some? ==> exists i :: FirstMatchAt(catalog, id, i) && url.value == catalog[i].url by {
        if url.Some? {
          var i :| FirstMatchAt(catalog[1..], id, i) && url.value == catalog[1..][i].url;
          assert catalog[i + 1] == catalog[1..][i];
          assert forall j :: 1 <= j < i + 1 ==> catalog[j] == catalog[1..][j - 1];
          assert FirstMatchAt(catalog, id, i + 1);
        }
      }
      url
  }

  /** Entries after the first match do not matter: a catalog that repeats
      an id resolves it to the first occurrence's url. */
  lemma FirstMatchWins(before: seq<CatalogEntry>, entry: CatalogEntry, after: seq<CatalogEntry>)
    requires forall i :: 0 <= i < |before| ==> before[i].id != entry.id
    ensures GetVersion(before + [entry] + after, entry.id) == Some(entry.url)
  {
    var c := before + [entry] + after;
    assert c[|before|].id == entry.id;
    assert forall k :: 0 <= k < |before| ==> c[k] == before[k];
    assert FirstMatchAt(c, entry.id, |before|);
  }
}
