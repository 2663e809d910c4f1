/** `normalizeOptions`: trim the submitted option texts, drop blanks, and drop
    case-insensitive duplicates, keeping the first occurrence of each. */
module OptionList {
  import opened JsString
  import opened Wrappers
  import opened PollSchema

  /** `String.prototype.toLowerCase`, left as a parameter of the model. */
  type LowerCase = string -> string

  /** Each submitted entry after `String(rawOption || "").trim()`. */
  function TrimAll(raw: seq<string>): (r: seq<string>)
    ensures |r| == |raw|
    ensures forall i :: 0 <= i < |raw| ==> r[i] == Trim(raw[i])
  {
    seq(|raw|, i requires 0 <= i < |raw| => Trim(raw[i]))
  }

  /** The dedup key of every non-blank text among the first `n`. */
  function SeenKeys(texts: seq<string>, lower: LowerCase, n: nat): set<string>
    requires n <= |texts|
  {
    if n == 0 then {}
    else SeenKeys(texts, lower, n - 1) + (if texts[n - 1] == "" then {} else {lower(texts[n - 1])})
  }

  /** Text `i` is kept: it is non-blank and no earlier non-blank text has the same key. */
  predicate IsFirstOccurrence(texts: seq<string>, lower: LowerCase, i: nat)
    requires i < |texts|
  {
    && texts[i] != ""
    && forall j :: 0 <= j < i && texts[j] != "" ==> lower(texts[j]) != lower(texts[i])
  }

  /** Reference definition: the first occurrences among the first `n` texts, in input order. */
  function FirstOccurrences(texts: seq<string>, lower: LowerCase, n: nat): seq<string>
    requires n <= |texts|
  {
    if n == 0 then []
    else FirstOccurrences(texts, lower, n - 1) + (if IsFirstOccurrence(texts, lower, n - 1) then [texts[n - 1]] else [])
  }

  /** The `for … of` loop of `normalizeOptions` from entry `i` on, with its `seen` set
      and the `uniqueTexts` collected so far (over the already trimmed entries). */
  function NormalizeLoop(texts: seq<string>, lower: LowerCase, i: nat, seen: set<string>, uniqueTexts: seq<string>): seq<string>
    requires i <= |texts|
    decreases |texts| - i
  {
    if i == |texts| then uniqueTexts
    else
      var text := texts[i];
      if text == "" then NormalizeLoop(texts, lower, i + 1, seen, uniqueTexts)
      else if lower(text) in seen then NormalizeLoop(texts, lower, i + 1, seen, uniqueTexts)
      else NormalizeLoop(texts, lower, i + 1, seen + {lower(text)}, uniqueTexts + [text])
  }

  /** `normalizeOptions(options)`: a non-array yields no options; otherwise the first
      occurrences of the trimmed entries, in input order, each with zero votes. */
  function NormalizeOptions(raw: Option<seq<string>>, lower: LowerCase): (r: seq<PollOption>)
    ensures raw.None? ==> r == []
    ensures raw.Some? ==> |r| == |FirstOccurrences(TrimAll(raw.value), lower, |raw.value|)|
    ensures raw.Some? ==> forall k :: 0 <= k < |r| ==> r[k].text == FirstOccurrences(TrimAll(raw.value), lower, |raw.value|)[k]
    ensures forall k :: 0 <= k < |r| ==> r[k].votes == 0
  {
    match raw
    case None => []
    case Some(options) =>
      var trimmed := TrimAll(options);
      LoopComputesFirstOccurrences(trimmed, lower, 0);
      var texts := NormalizeLoop(trimmed, lower, 0, {}, []);
      seq(|texts|, k requires 0 <= k < |texts| => PollOption(texts[k], 0))
  }

  lemma {:induction false} SeenKeysMember(texts: seq<string>, lower: LowerCase, n: nat, key: string)
    requires n <= |texts|
    ensures key in SeenKeys(texts, lower, n) <==>
      exists j :: 0 <= j < n && texts[j] != "" && lower(texts[j]) == key
  {
    if n > 0 {
      SeenKeysMember(texts, lower, n - 1, key);
    }
  }

  lemma FirstOccurrenceUnseen(texts: seq<string>, lower: LowerCase, i: nat)
    requires i < |texts|
    ensures IsFirstOccurrence(texts, lower, i) <==>
      texts[i] != "" && lower(texts[i]) !in SeenKeys(texts, lower, i)
  {
    SeenKeysMember(texts, lower, i, lower(texts[i]));
  }

  /** The loop keeps the invariant `seen == SeenKeys(i)` and `uniqueTexts == FirstOccurrences(i)`. */
  lemma {:induction false} LoopComputesFirstOccurrences(texts: seq<string>, lower: LowerCase, i: nat)
    requires i <= |texts|
    ensures NormalizeLoop(texts, lower, i, SeenKeys(texts, lower, i), FirstOccurrences(texts, lower, i))
         == FirstOccurrences(texts, lower, |texts|)
    decreases |texts| - i
  {
    if i < |texts| {
      FirstOccurrenceUnseen(texts, lower, i);
      var text := texts[i];
      var seen, kept := SeenKeys(texts, lower, i), FirstOccurrences(texts, lower, i);
      var seen', kept' := SeenKeys(texts, lower, i + 1), FirstOccurrences(texts, lower, i + 1);
      if text == "" {
        assert seen' == seen && kept' == kept;
      } else if lower(text) in seen {
        assert seen' == seen && kept' == kept;
      } else {
        assert seen' == seen + {lower(text)} && kept' == kept + [text];
      }
      assert NormalizeLoop(texts, lower, i, seen, kept) == NormalizeLoop(texts, lower, i + 1, seen', kept');
      LoopComputesFirstOccurrences(texts, lower, i + 1);
    }
  }

  /** What the reference output guarantees: every text is one of the non-blank inputs,
      no two texts share a key, and the texts' keys are exactly the keys of the non-blank
      inputs (nothing but blanks and repeats is dropped). */
  lemma {:induction false} FirstOccurrencesProperties(texts: seq<string>, lower: LowerCase, n: nat)
    requires n <= |texts|
    ensures forall k :: 0 <= k < |FirstOccurrences(texts, lower, n)| ==>
      FirstOccurrences(texts, lower, n)[k] != "" && FirstOccurrences(texts, lower, n)[k] in texts
    ensures forall k, l :: 0 <= k < l < |FirstOccurrences(texts, lower, n)| ==>
      lower(FirstOccurrences(texts, lower, n)[k]) != lower(FirstOccurrences(texts, lower, n)[l])
    ensures forall key :: key in SeenKeys(texts, lower, n) ==>
      exists k :: 0 <= k < |FirstOccurrences(texts, lower, n)| && lower(FirstOccurrences(texts, lower, n)[k]) == key
    ensures forall k :: 0 <= k < |FirstOccurrences(texts, lower, n)| ==>
      lower(FirstOccurrences(texts, lower, n)[k]) in SeenKeys(texts, lower, n)
  {
    if n > 0 {
      FirstOccurrencesProperties(texts, lower, n - 1);
      FirstOccurrenceUnseen(texts, lower, n - 1);
      var prev := FirstOccurrences(texts, lower, n - 1);
      var out := FirstOccurrences(texts, lower, n);
      var text := texts[n - 1];
      if IsFirstOccurrence(texts, lower, n - 1) {
        assert out == prev + [text];
        forall k, l | 0 <= k < l < |out| ensures lower(out[k]) != lower(out[l]) {
          if l == |prev| {
            assert out[k] in prev;
          }
        }
        forall key | key in SeenKeys(texts, lower, n)
          ensures exists k :: 0 <= k < |out| && lower(out[k]) == key
        {
          if key == lower(text) {
            assert lower(out[|prev|]) == key;
          } else {
            var k :| 0 <= k < |prev| && lower(prev[k]) == key;
            assert out[k] == prev[k];
          }
        }
      } else {
        assert out == prev;
        if text != "" {
          assert lower(text) in SeenKeys(texts, lower, n - 1);
        }
      }
    }
  }

  lemma TrimAllTrimmed(raw: seq<string>)
    ensures forall t :: t in TrimAll(raw) ==> IsTrimmed(t)
  {
    forall t | t in TrimAll(raw) ensures IsTrimmed(t) {
      var i :| 0 <= i < |raw| && TrimAll(raw)[i] == t;
    }
  }

  /** `normalizeOptions` on an array: every option text is non-blank and trimmed, and no
      two options share a lower-case key. */
  lemma NormalizeOptionsDistinct(raw: seq<string>, lower: LowerCase, r: seq<PollOption>)
    requires r == NormalizeOptions(Some(raw), lower)
    ensures forall k :: 0 <= k < |r| ==> r[k].text != "" && IsTrimmed(r[k].text)
    ensures forall k, l :: 0 <= k < l < |r| ==> lower(r[k].text) != lower(r[l].text)
  {
    var trimmed := TrimAll(raw);
    FirstOccurrencesProperties(trimmed, lower, |raw|);
    TrimAllTrimmed(raw);
  }

  /** Nothing but blanks and repeats is dropped: every non-blank entry's key is the key of
      some option. */
  lemma NormalizeOptionsComplete(raw: seq<string>, lower: LowerCase, r: seq<PollOption>, i: nat)
    requires r == NormalizeOptions(Some(raw), lower)
    requires i < |raw| && Trim(raw[i]) != ""
    ensures exists k :: 0 <= k < |r| && lower(r[k].text) == lower(Trim(raw[i]))
  {
    var trimmed := TrimAll(raw);
    var texts := FirstOccurrences(trimmed, lower, |raw|);
    FirstOccurrencesProperties(trimmed, lower, |raw|);
    SeenKeysMember(trimmed, lower, |raw|, lower(trimmed[i]));
    var k :| 0 <= k < |texts| && lower(texts[k]) == lower(trimmed[i]);
    assert r[k].text == texts[k];
  }
}
