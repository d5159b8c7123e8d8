/** System URIs and the id taken from their last segment. */
module SystemUri {

  /** `f"{exchange_url}/systems/{system_id}"`. */
  function Build(exchangeUrl: string, systemId: string): string {
    exchangeUrl + "/systems/" + systemId
  }

  /** `rstrip("/")`. */
  function TrimSlashes(s: string): (r: string)
    ensures r == "" || r[|r| - 1] != '/'
  {
    if s != "" && s[|s| - 1] == '/' then TrimSlashes(s[..|s| - 1]) else s
  }

  /** `rsplit("/", 1)[-1]`: what follows the last slash. */
  function LastSegment(s: string): (r: string)
    ensures '/' !in r
    ensures s != "" && s[|s| - 1] != '/' ==> r != ""
  {
    if s == "" || s[|s| - 1] == '/' then "" else LastSegment(s[..|s| - 1]) + [s[|s| - 1]]
  }

  function SystemIdOf(uri: string): (r: string)
    ensures '/' !in r
  {
    LastSegment(TrimSlashes(uri))
  }

  lemma {:induction false} LastSegmentAfterSlash(head: string, id: string)
    requires '/' !in id
    ensures LastSegment(head + "/" + id) == id
  {
    var s := head + "/" + id;
    if id == "" {
      assert s[|s| - 1] == '/';
    } else {
      assert s[..|s| - 1] == head + "/" + id[..|id| - 1];
      LastSegmentAfterSlash(head, id[..|id| - 1]);
      assert id == id[..|id| - 1] + [id[|id| - 1]];
    }
  }

  /** Taking the last segment of a built URI gives the id back exactly for non-empty ids without a slash. */
  lemma BuildThenSplit(exchangeUrl: string, id: string)
    ensures SystemIdOf(Build(exchangeUrl, id)) == id <==> id != "" && '/' !in id
  {
    var uri := Build(exchangeUrl, id);
    var head := exchangeUrl + "/systems";
    assert uri == head + "/" + id;
    if id == "" {
      assert uri[..|uri| - 1] == head;
      assert head[|head| - 1] == 's';
      assert TrimSlashes(uri) == head;
    } else if '/' !in id {
      assert uri[|uri| - 1] == id[|id| - 1];
      LastSegmentAfterSlash(head, id);
    }
  }

  /** Trailing slashes, however many, do not change the id. */
  lemma {:induction false} TrailingSlashesIgnored(uri: string, slashes: string)
    requires forall i :: 0 <= i < |slashes| ==> slashes[i] == '/'
    ensures SystemIdOf(uri + slashes) == SystemIdOf(uri)
  {
    if slashes == "" {
      assert uri + slashes == uri;
    } else {
      var s := uri + slashes;
      assert s[..|s| - 1] == uri + slashes[..|slashes| - 1];
      TrailingSlashesIgnored(uri, slashes[..|slashes| - 1]);
    }
  }
}
