/** The share link returned by poll creation. */
module ShareUrl {

  /** `String(url || "").replace(/\/+$/, "")`: drop the maximal run of trailing slashes.
      The result is a prefix of `url`, the removed part consists of slashes only,
      and the result does not end in a slash. */
  function StripTrailingSlashes(url: string): (r: string)
    ensures r <= url
    ensures forall k :: |r| <= k < |url| ==> url[k] == '/'
    ensures |r| == 0 || r[|r| - 1] != '/'
  {
    if |url| > 0 && url[|url| - 1] == '/' then StripTrailingSlashes(url[..|url| - 1]) else url
  }

  /** Stripping is idempotent. */
  lemma StripIdempotent(url: string)
    ensures StripTrailingSlashes(StripTrailingSlashes(url)) == StripTrailingSlashes(url)
  {
  }

  /** Conversely, a string that does not end in a slash, followed by any run of
      slashes, strips back to exactly that string. */
  lemma {:induction false} StripUnique(base: string, slashes: string)
    requires |base| == 0 || base[|base| - 1] != '/'
    requires forall k :: 0 <= k < |slashes| ==> slashes[k] == '/'
    ensures StripTrailingSlashes(base + slashes) == base
    decreases |slashes|
  {
    if |slashes| > 0 {
      assert (base + slashes)[..|base + slashes| - 1] == base + slashes[..|slashes| - 1];
      StripUnique(base, slashes[..|slashes| - 1]);
    } else {
      assert base + slashes == base;
    }
  }

  /** `${baseUrl}/poll/${poll._id}` with the configured base stripped of trailing slashes:
      the link ends in `/poll/<id>`, and what precedes it is the configured base without
      its trailing slashes, so the path never follows a doubled slash. */
  function PollShareUrl(configuredBase: string, id: string): (r: string)
    ensures |r| >= |id| + 6
    ensures r[|r| - |id| - 6..] == "/poll/" + id
    ensures r[..|r| - |id| - 6] <= configuredBase
    ensures forall k :: |r| - |id| - 6 <= k < |configuredBase| ==> configuredBase[k] == '/'
    ensures |r| - |id| - 6 == 0 || r[|r| - |id| - 7] != '/'
  {
    var base := StripTrailingSlashes(configuredBase);
    var r := base + "/poll/" + id;
    assert r[..|base|] == base && r[|base|..] == "/poll/" + id;
    r
  }

  /** A base configured with any number of trailing slashes yields the same link as the
      bare base. */
  lemma ShareUrlIgnoresTrailingSlashes(base: string, slashes: string, id: string)
    requires |base| == 0 || base[|base| - 1] != '/'
    requires forall k :: 0 <= k < |slashes| ==> slashes[k] == '/'
    ensures PollShareUrl(base + slashes, id) == PollShareUrl(base, id)
  {
    StripUnique(base, slashes);
    StripUnique(base, "");
    assert base + "" == base;
  }
}
