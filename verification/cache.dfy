/**
 * The audio cache: the key under which a synthesis is stored, and the cache
 * itself, a dictionary from keys to audio records kept by the synthesiser.
 *
 * The key is the md5 digest of a string built from the provider name, the
 * normalised text, the normalised voice and, when there are any, the voice
 * settings as JSON with sorted keys. The digest is a parameter `digest`; the
 * JSON values of the settings are taken as already serialised.
 */
module Cache {
  import opened Options
  import opened Text
  import opened Patterns
  import opened Timings

  /** `' '.join(text.strip().lower().split())` */
  function NormalizeText(text: string): string {
    JoinSpace(Split(Lower(Strip(text))))
  }

  /** `voice.strip().lower()` */
  function NormalizeVoice(voice: string): string {
    Lower(Strip(voice))
  }

  /** A normalised text is lower case, has no whitespace at either end, and its words are separated by single spaces. */
  lemma NormalizeTextShape(text: string)
    ensures var n := NormalizeText(text);
      IsLower(n) && Trimmed(n) && n == JoinSpace(Split(n))
      && Split(n) == Split(Lower(Strip(text)))
  {
    var words := Split(Lower(Strip(text)));
    LowerOfLower(Strip(text));
    SplitLower(Lower(Strip(text)));
    JoinSpaceLower(words);
    if words != [] {
      JoinSpaceEnds(words);
    }
    SplitJoin(words);
  }

  /** Normalising a normalised text changes nothing. */
  lemma NormalizeTextIdempotent(text: string)
    ensures NormalizeText(NormalizeText(text)) == NormalizeText(text)
  {
    var n := NormalizeText(text);
    NormalizeTextShape(text);
    StripTrimmed(n);
    LowerOfLower(n);
  }

  /** A normalised voice is lower case with no whitespace at either end, and normalising it again changes nothing. */
  lemma NormalizeVoiceIdempotent(voice: string)
    ensures IsLower(NormalizeVoice(voice)) && Trimmed(NormalizeVoice(voice))
    ensures NormalizeVoice(NormalizeVoice(voice)) == NormalizeVoice(voice)
  {
    var v := NormalizeVoice(voice);
    StripTrimmed(voice);
    LowerTrimmed(Strip(voice));
    LowerOfLower(Strip(voice));
    StripTrimmed(v);
    LowerOfLower(v);
  }

  /** One entry of the voice-settings dictionary: its key and its value, already as JSON text. */
  datatype Setting = Setting(name: string, json: string)

  /** Python's `<` on strings: lexicographic by code point. */
  predicate Below(a: string, b: string) {
    if a == [] then b != []
    else if b == [] then false
    else if a[0] != b[0] then a[0] < b[0]
    else Below(a[1..], b[1..])
  }

  lemma {:induction false} BelowIrreflexive(a: string)
    ensures !Below(a, a)
  {
    if a != [] {
      BelowIrreflexive(a[1..]);
    }
  }

  lemma {:induction false} BelowAsymmetric(a: string, b: string)
    requires Below(a, b)
    ensures !Below(b, a)
  {
    if a != [] && a[0] == b[0] {
      BelowAsymmetric(a[1..], b[1..]);
    }
  }

  lemma {:induction false} BelowTransitive(a: string, b: string, c: string)
    requires Below(a, b) && Below(b, c)
    ensures Below(a, c)
  {
    if a != [] && a[0] == b[0] && b[0] == c[0] {
      BelowTransitive(a[1..], b[1..], c[1..]);
    }
  }

  lemma {:induction false} BelowTotal(a: string, b: string)
    requires a != b
    ensures Below(a, b) || Below(b, a)
  {
    if a != [] && b != [] && a[0] == b[0] {
      assert a == [a[0]] + a[1..] && b == [b[0]] + b[1..];
      BelowTotal(a[1..], b[1..]);
    }
  }

  /** A dictionary's keys are distinct. */
  predicate DistinctNames(xs: seq<Setting>) {
    forall i, j | 0 <= i < j < |xs| :: xs[i].name != xs[j].name
  }

  /** In strictly increasing order of key. */
  predicate StrictlySorted(xs: seq<Setting>) {
    forall i, j | 0 <= i < j < |xs| :: Below(xs[i].name, xs[j].name)
  }

  /** Insert `x` before the first entry whose key is not below its own. */
  function Insert(x: Setting, xs: seq<Setting>): (r: seq<Setting>)
    ensures multiset(r) == multiset(xs) + multiset{x}
  {
    if xs == [] || !Below(xs[0].name, x.name) then [x] + xs
    else
      assert xs == [xs[0]] + xs[1..];
      [xs[0]] + Insert(x, xs[1..])
  }

  /** `sorted(settings.items())`, by insertion. */
  function SortByName(xs: seq<Setting>): (r: seq<Setting>)
    ensures multiset(r) == multiset(xs)
  {
    if xs == [] then []
    else
      assert xs == [xs[0]] + xs[1..];
      Insert(xs[0], SortByName(xs[1..]))
  }

  lemma {:induction false} InsertSorted(x: Setting, xs: seq<Setting>)
    requires StrictlySorted(xs)
    requires forall i | 0 <= i < |xs| :: xs[i].name != x.name
    ensures StrictlySorted(Insert(x, xs))
  {
    if xs == [] {
    } else if !Below(xs[0].name, x.name) {
      BelowTotal(x.name, xs[0].name);
      forall j | 1 <= j < |xs| ensures Below(x.name, xs[j].name) {
        BelowTransitive(x.name, xs[0].name, xs[j].name);
      }
    } else {
      InsertSorted(x, xs[1..]);
      InsertAbove(x, xs);
      ConsSorted(xs[0], Insert(x, xs[1..]));
    }
  }

  /** Whatever is inserted behind the head is above it. */
  lemma InsertAbove(x: Setting, xs: seq<Setting>)
    requires StrictlySorted(xs) && xs != [] && Below(xs[0].name, x.name)
    ensures forall j | 0 <= j < |Insert(x, xs[1..])| :: Below(xs[0].name, Insert(x, xs[1..])[j].name)
  {
    var tail := Insert(x, xs[1..]);
    forall j | 0 <= j < |tail| ensures Below(xs[0].name, tail[j].name) {
      var y := tail[j];
      assert y in multiset(tail);
      if y != x {
        assert y in multiset(xs[1..]);
        var k :| 0 <= k < |xs[1..]| && xs[1..][k] == y;
        assert xs[k + 1] == y;
      }
    }
  }

  /** A head below everything in a sorted tail keeps the sequence sorted. */
  lemma ConsSorted(h: Setting, tail: seq<Setting>)
    requires StrictlySorted(tail)
    requires forall j | 0 <= j < |tail| :: Below(h.name, tail[j].name)
    ensures StrictlySorted([h] + tail)
  {
    var r := [h] + tail;
    forall i, j | 0 <= i < j < |r| ensures Below(r[i].name, r[j].name) {
      if i > 0 {
        assert r[i] == tail[i - 1] && r[j] == tail[j - 1];
      }
    }
  }

  /** Sorting a dictionary's items puts them in strictly increasing order of key. */
  lemma {:induction false} SortSorted(xs: seq<Setting>)
    requires DistinctNames(xs)
    ensures StrictlySorted(SortByName(xs))
  {
    if xs != [] {
      var tail := SortByName(xs[1..]);
      SortSorted(xs[1..]);
      forall i | 0 <= i < |tail| ensures tail[i].name != xs[0].name {
        assert tail[i] in multiset(xs[1..]);
        var k :| 0 <= k < |xs[1..]| && xs[1..][k] == tail[i];
        assert xs[k + 1] == tail[i];
      }
      InsertSorted(xs[0], tail);
    }
  }

  lemma SortedTail(a: seq<Setting>)
    requires StrictlySorted(a) && a != []
    ensures StrictlySorted(a[1..])
  {
    forall i, j | 0 <= i < j < |a| - 1 ensures Below(a[1..][i].name, a[1..][j].name) {
      assert a[1..][i] == a[i + 1] && a[1..][j] == a[j + 1];
    }
  }

  /** The least element of a strictly sorted sequence comes first. */
  lemma SortedHead(a: seq<Setting>, b: seq<Setting>)
    requires StrictlySorted(a) && StrictlySorted(b) && a != []
    requires multiset(a) == multiset(b)
    ensures b != [] && a[0] == b[0]
  {
    assert a[0] in multiset(b);
    var k :| 0 <= k < |b| && b[k] == a[0];
    assert b[0] in multiset(a);
    var m :| 0 <= m < |a| && a[m] == b[0];
    if k > 0 {
      if m == 0 {
        BelowIrreflexive(b[0].name);
      } else {
        BelowAsymmetric(b[0].name, b[k].name);
      }
      assert false;
    }
  }

  /** Two strictly sorted sequences with the same elements are the same sequence. */
  lemma {:induction false} SortedUnique(a: seq<Setting>, b: seq<Setting>)
    requires StrictlySorted(a) && StrictlySorted(b)
    requires multiset(a) == multiset(b)
    ensures a == b
  {
    if a != [] {
      SortedHead(a, b);
      assert a == [a[0]] + a[1..] && b == [b[0]] + b[1..];
      assert multiset(a[1..]) == multiset(a) - multiset{a[0]};
      assert multiset(b[1..]) == multiset(b) - multiset{b[0]};
      SortedTail(a);
      SortedTail(b);
      assert multiset(a[1..]) == multiset(b[1..]);
      SortedUnique(a[1..], b[1..]);
    }
  }

  /** `"name": value` */
  function Member(x: Setting): string {
    "\"" + x.name + "\": " + x.json
  }

  /** The members joined with `, `, as `json.dumps` separates them. */
  function Members(xs: seq<Setting>): string {
    if xs == [] then ""
    else if |xs| == 1 then Member(xs[0])
    else Member(xs[0]) + ", " + Members(xs[1..])
  }

  /** `json.dumps(settings, sort_keys=True)` */
  function SettingsJson(settings: seq<Setting>): string {
    "{" + Members(SortByName(settings)) + "}"
  }

  /** The order in which the settings were inserted does not show in their JSON. */
  lemma SettingsJsonOrderFree(a: seq<Setting>, b: seq<Setting>)
    requires DistinctNames(a) && DistinctNames(b)
    requires multiset(a) == multiset(b)
    ensures SettingsJson(a) == SettingsJson(b)
  {
    SortSorted(a);
    SortSorted(b);
    SortedUnique(SortByName(a), SortByName(b));
  }

  const ProviderField: string := "provider="

  /** What follows the provider: `<text>|<voice>`, then `|<settings as JSON>` when there are settings. */
  function KeyBody(text: string, voice: string, settings: seq<Setting>): string {
    if settings != [] then NormalizeText(text) + "|" + NormalizeVoice(voice) + "|" + SettingsJson(settings)
    else NormalizeText(text) + "|" + NormalizeVoice(voice)
  }

  /**
   * The string that is hashed: `provider=<name>|` and the body. An empty
   * settings dictionary and no dictionary both count as no settings.
   */
  function KeyString(provider: string, text: string, voice: string, settings: seq<Setting>): string {
    ProviderField + provider + "|" + KeyBody(text, voice, settings)
  }

  /** `_get_cache_key`: the digest of the key string. */
  function CacheKey(digest: string -> string, provider: string, text: string, voice: string, settings: seq<Setting>): string {
    digest(KeyString(provider, text, voice, settings))
  }

  /** The provider name read back from a key string: what lies between `provider=` and the first `|`. */
  function ProviderOf(k: string): string {
    if StartsWith(k, ProviderField) then
      var rest := k[|ProviderField|..];
      rest[..IndexOf(rest, '|')]
    else ""
  }

  lemma ProviderOfPrefixed(provider: string, body: string)
    requires '|' !in provider
    ensures ProviderOf(ProviderField + provider + "|" + body) == provider
  {
    var k := ProviderField + provider + "|" + body;
    var rest := provider + "|" + body;
    assert k[..|ProviderField|] == ProviderField && k[|ProviderField|..] == rest;
    var n := |provider|;
    assert rest[n] == '|';
    assert forall i | 0 <= i < n :: rest[i] == provider[i];
    assert rest[..n] == provider;
  }

  /** A provider name without `|` can be read back from every key string made with it. */
  lemma ProviderRoundTrip(provider: string, text: string, voice: string, settings: seq<Setting>)
    requires '|' !in provider
    ensures ProviderOf(KeyString(provider, text, voice, settings)) == provider
  {
    ProviderOfPrefixed(provider, KeyBody(text, voice, settings));
  }

  /** Two providers never share a key string, whatever is being spoken, so neither can be served the other's audio. */
  lemma ProvidersSeparated(p1: string, p2: string, t1: string, t2: string, v1: string, v2: string, s1: seq<Setting>, s2: seq<Setting>)
    requires '|' !in p1 && '|' !in p2 && p1 != p2
    ensures KeyString(p1, t1, v1, s1) != KeyString(p2, t2, v2, s2)
  {
    ProviderRoundTrip(p1, t1, v1, s1);
    ProviderRoundTrip(p2, t2, v2, s2);
  }

  lemma KeyBodyNormalised(text: string, voice: string, settings: seq<Setting>)
    ensures KeyBody(NormalizeText(text), NormalizeVoice(voice), settings) == KeyBody(text, voice, settings)
  {
    NormalizeTextIdempotent(text);
    NormalizeVoiceIdempotent(voice);
    KeyBodyCongruent(NormalizeText(text), NormalizeVoice(voice), text, voice, settings);
  }

  /** The body depends on the text and voice only through their normal forms. */
  lemma KeyBodyCongruent(t1: string, v1: string, t2: string, v2: string, settings: seq<Setting>)
    requires NormalizeText(t1) == NormalizeText(t2) && NormalizeVoice(v1) == NormalizeVoice(v2)
    ensures KeyBody(t1, v1, settings) == KeyBody(t2, v2, settings)
  {
  }

  /** Case, surrounding whitespace and runs of whitespace in the text or voice do not change the key. */
  lemma CacheKeyNormalised(digest: string -> string, provider: string, text: string, voice: string, settings: seq<Setting>)
    ensures CacheKey(digest, provider, NormalizeText(text), NormalizeVoice(voice), settings)
      == CacheKey(digest, provider, text, voice, settings)
  {
    KeyBodyNormalised(text, voice, settings);
  }

  /** The insertion order of the settings dictionary does not change the key. */
  lemma CacheKeyOrderFree(digest: string -> string, provider: string, text: string, voice: string, a: seq<Setting>, b: seq<Setting>)
    requires DistinctNames(a) && DistinctNames(b)
    requires multiset(a) == multiset(b)
    ensures CacheKey(digest, provider, text, voice, a) == CacheKey(digest, provider, text, voice, b)
  {
    SettingsJsonOrderFree(a, b);
    assert a == [] <==> b == [] by {
      assert |a| == |multiset(a)| && |b| == |multiset(b)|;
    }
  }

  function GetOr<T>(o: Option<T>, default: T): T {
    if o.Some? then o.value else default
  }

  /**
   * A synthesis result or a cache entry: the audio file's path, and the word
   * timings and duration, either of which may be absent from the dictionary.
   */
  datatype AudioRecord = AudioRecord(path: string, wordTimings: Option<seq<WordTiming>>, duration: Option<real>)

  /** What a cache hit hands back, with the defaults filled in. */
  datatype CachedAudio = CachedAudio(path: string, wordTimings: seq<WordTiming>, duration: real)

  /** The answer of a lookup, given the set of paths that exist on disk. */
  function Lookup(entries: map<string, AudioRecord>, key: string, existing: set<string>): (r: Option<CachedAudio>)
    ensures r.Some? <==> key in entries && entries[key].path in existing
    ensures r.Some? ==> r.value.path in existing
  {
    if key in entries && entries[key].path in existing then
      var e := entries[key];
      Some(CachedAudio(e.path, GetOr(e.wordTimings, []), GetOr(e.duration, 0.0)))
    else None
  }

  /** The entries after a lookup: the looked-up entry is dropped when its file is gone. */
  function Pruned(entries: map<string, AudioRecord>, key: string, existing: set<string>): (r: map<string, AudioRecord>)
    ensures forall k | k in r :: k in entries && r[k] == entries[k]
    ensures forall k | k in entries && (k != key || entries[k].path in existing) :: k in r
  {
    if key in entries && entries[key].path !in existing then entries - {key} else entries
  }

  /** The result once its duration is ensured: the given one, else the measured one, else 0. */
  function WithDuration(result: AudioRecord, measured: Option<real>): (r: AudioRecord)
    ensures r.duration.Some?
  {
    if result.duration.Some? then result else result.(duration := Some(GetOr(measured, 0.0)))
  }

  /** The entry `_cache_audio` writes for a result. */
  function Stored(result: AudioRecord): (r: AudioRecord)
    ensures r.path == result.path && r.wordTimings.Some? && r.duration.Some?
    ensures result.wordTimings.Some? ==> r.wordTimings == result.wordTimings
    ensures result.duration.Some? ==> r.duration == result.duration
  {
    AudioRecord(result.path, Some(GetOr(result.wordTimings, [])), Some(GetOr(result.duration, 0.0)))
  }

  /**
   * A lookup never answers differently for having pruned: looking up again
   * gives the same answer and prunes nothing more; and no other key is touched.
   */
  lemma PrunedStable(entries: map<string, AudioRecord>, key: string, existing: set<string>)
    ensures Lookup(Pruned(entries, key, existing), key, existing) == Lookup(entries, key, existing)
    ensures Pruned(Pruned(entries, key, existing), key, existing) == Pruned(entries, key, existing)
    ensures key !in Pruned(entries, key, existing) || Pruned(entries, key, existing)[key].path in existing
      || key !in entries
    ensures forall k | k != key :: (k in Pruned(entries, key, existing) <==> k in entries)
    ensures forall k | k != key && k in entries :: Pruned(entries, key, existing)[k] == entries[k]
  {
  }

  /**
   * Round trip: right after a result is cached, looking its key up gives back
   * its path and word timings (an absent list as empty) and its duration
   * (given, else measured, else 0), provided its file exists.
   */
  lemma StoreThenLookup(entries: map<string, AudioRecord>, key: string, result: AudioRecord, measured: Option<real>, existing: set<string>)
    ensures var stored := entries[key := Stored(WithDuration(result, measured))];
      Lookup(stored, key, existing)
      == if result.path in existing then
           Some(CachedAudio(result.path, GetOr(result.wordTimings, []),
             if result.duration.Some? then result.duration.value else GetOr(measured, 0.0)))
         else None
  {
  }

  /** The cache the synthesiser keeps: `self.cache`. Saving it to disk after every change is not modelled. */
  class AudioCache {
    var entries: map<string, AudioRecord>

    /** The cache as loaded at start-up; empty when there was no cache file or it could not be read. */
    constructor (loaded: map<string, AudioRecord>)
      ensures entries == loaded
    {
      entries := loaded;
    }

    /** `_get_cached_audio`: a hit when the key is present and its file exists; a present key whose file is gone is deleted. */
    method GetCachedAudio(cacheKey: string, existing: set<string>) returns (r: Option<CachedAudio>)
      modifies this
      ensures r == Lookup(old(entries), cacheKey, existing)
      ensures entries == Pruned(old(entries), cacheKey, existing)
    {
      r := None;
      if cacheKey in entries {
        var cacheData := entries[cacheKey];
        var audioPath := cacheData.path;
        if audioPath in existing {
          r := Some(CachedAudio(audioPath, GetOr(cacheData.wordTimings, []), GetOr(cacheData.duration, 0.0)));
        } else {
          entries := entries - {cacheKey};
        }
      }
    }

    /**
     * `_cache_audio`: makes sure the result carries a duration (the measured
     * length of its file, or 0 when that could not be measured) and stores the
     * entry under the key, replacing any earlier one.
     */
    method CacheAudio(cacheKey: string, result: AudioRecord, measured: Option<real>) returns (updated: AudioRecord)
      modifies this
      ensures updated == WithDuration(result, measured)
      ensures entries == old(entries)[cacheKey := Stored(updated)]
    {
      updated := result;
      if result.duration.None? {
        updated := result.(duration := Some(GetOr(measured, 0.0)));
      }
      entries := entries[cacheKey := AudioRecord(updated.path, Some(GetOr(updated.wordTimings, [])), Some(GetOr(updated.duration, 0.0)))];
    }
  }
}
