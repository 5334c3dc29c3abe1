/**
 * Queue keys: `city:hash`, the city a slug and the hash taken over the canonical text of the
 * preferences. Users are matched within one key, and a session's region is cut out of it again.
 */
module QueueKeys {
  import opened Redis
  import StableStringify

  // ---- `normalizeQueueCity` ----

  predicate SlugChar(c: char) { 'a' <= c <= 'z' || '0' <= c <= '9' }

  /** `replace(/[^a-z0-9]+/g, '-')`: every run of other characters becomes one dash. */
  function Collapse(s: string): string
    decreases |s|
  {
    if s == "" then ""
    else if SlugChar(s[0]) then [s[0]] + Collapse(s[1..])
    else "-" + Collapse(SkipOther(s))
  }

  function SkipOther(s: string): (r: string)
    ensures |r| <= |s| && (s != "" && !SlugChar(s[0]) ==> |r| < |s|)
    ensures r != "" ==> SlugChar(r[0])
  {
    if s == "" || SlugChar(s[0]) then s else SkipOther(s[1..])
  }

  /** `replace(/^-+|-+$/g, '')`. */
  function StripLeft(s: string): string {
    if s != "" && s[0] == '-' then StripLeft(s[1..]) else s
  }

  function StripRight(s: string): string {
    if s != "" && s[|s| - 1] == '-' then StripRight(s[..|s| - 1]) else s
  }

  /** `trim` and `toLowerCase`, of which only this matters: they leave slugs as they are. */
  datatype Platform = Platform(trim: string -> string, lower: string -> string)

  ghost predicate LeavesSlugs(p: Platform) {
    forall s :: (forall i :: 0 <= i < |s| ==> SlugChar(s[i]) || s[i] == '-') ==> p.trim(s) == s && p.lower(s) == s
  }

  function Slug(s: string): Option<string> {
    var normalized := StripRight(StripLeft(Collapse(s)));
    if normalized != "" then Some(normalized) else None
  }

  /** `None` for the source's `null`. */
  function NormalizeCity(p: Platform, value: string): Option<string> {
    Slug(p.lower(p.trim(value)))
  }

  // ---- What a slug is: the words of the text, joined by single dashes ----

  function Word(s: string): (r: string)
    ensures |r| <= |s| && r == s[..|r|] && (forall i :: 0 <= i < |r| ==> SlugChar(r[i]))
    ensures |r| < |s| ==> !SlugChar(s[|r|])
  {
    if s == "" || !SlugChar(s[0]) then "" else [s[0]] + Word(s[1..])
  }

  /** The maximal runs of [a-z0-9]. */
  function Words(s: string): seq<string>
    decreases |s|
  {
    if s == "" then []
    else if SlugChar(s[0]) then [Word(s)] + Words(s[|Word(s)|..])
    else Words(s[1..])
  }

  function Dashed(words: seq<string>): string {
    if words == [] then "" else if |words| == 1 then words[0] else words[0] + "-" + Dashed(words[1..])
  }

  ghost predicate AreWords(words: seq<string>) {
    forall i :: 0 <= i < |words| ==> words[i] != "" && forall j :: 0 <= j < |words[i]| ==> SlugChar(words[i][j])
  }

  lemma {:induction false} WordsAreWords(s: string)
    ensures AreWords(Words(s))
    decreases |s|
  {
    if s == "" {
    } else if SlugChar(s[0]) {
      WordsAreWords(s[|Word(s)|..]);
      assert Word(s) != "";
    } else {
      WordsAreWords(s[1..]);
    }
  }

  lemma {:induction false} SkipKeepsWords(s: string)
    ensures Words(SkipOther(s)) == Words(s)
  {
    if s != "" && !SlugChar(s[0]) {
      SkipKeepsWords(s[1..]);
    }
  }

  lemma {:induction false} CollapseWord(s: string)
    ensures Collapse(s) == Word(s) + Collapse(s[|Word(s)|..])
  {
    if s != "" && SlugChar(s[0]) {
      CollapseWord(s[1..]);
      assert s[1..][|Word(s[1..])|..] == s[|Word(s)|..];
    }
  }

  lemma AppendDashed(w: string, d: string, text: string)
    requires text == d || text == d + "-"
    ensures w + ("-" + text) == w + "-" + d || w + ("-" + text) == w + "-" + d + "-"
  {
  }

  /** A text that starts with a word collapses to its words, with a dash at the end if it ends in
      something else. */
  lemma {:induction false} CollapseFromWord(s: string)
    requires s != "" && SlugChar(s[0])
    ensures Collapse(s) == Dashed(Words(s)) || Collapse(s) == Dashed(Words(s)) + "-"
    ensures Words(s) != []
    decreases |s|
  {
    CollapseWord(s);
    var w, rest := Word(s), s[|Word(s)|..];
    assert w != "";
    if rest == "" {
      assert Words(s) == [w];
    } else {
      var next := SkipOther(rest);
      SkipKeepsWords(rest);
      assert Words(s) == [w] + Words(next);
      assert Collapse(s) == w + ("-" + Collapse(next));
      if next != "" {
        CollapseFromWord(next);
        assert ([w] + Words(next))[1..] == Words(next);
        AppendDashed(w, Dashed(Words(next)), Collapse(next));
      }
    }
  }

  lemma {:induction false} DashedEnds(words: seq<string>)
    requires AreWords(words) && words != []
    ensures var d := Dashed(words); d != "" && SlugChar(d[0]) && SlugChar(d[|d| - 1])
  {
    if |words| > 1 {
      DashedEnds(words[1..]);
    }
  }

  /** The code computes exactly the words of the text with single dashes between them. */
  lemma SlugIsWords(s: string)
    ensures Slug(s) == if Words(s) == [] then None else Some(Dashed(Words(s)))
  {
    var next := SkipOther(s);
    SkipKeepsWords(s);
    WordsAreWords(s);
    if next == "" {
      if s != "" {
        assert SkipOther(s) != s;
        assert Collapse(s) == "-";
      }
      assert StripLeft("-") == "";
    } else {
      CollapseFromWord(next);
      DashedEnds(Words(s));
      var d := Dashed(Words(s));
      assert StripLeft(Collapse(s)) == Collapse(next) by {
        if next != s {
          assert Collapse(s) == "-" + Collapse(next);
          assert ("-" + Collapse(next))[1..] == Collapse(next);
        }
      }
      assert StripRight(d) == d;
      assert (d + "-")[..|d|] == d;
    }
  }

  lemma {:induction false} WordPrefix(w: string, rest: string)
    requires forall j :: 0 <= j < |w| ==> SlugChar(w[j])
    requires rest == "" || !SlugChar(rest[0])
    ensures Word(w + rest) == w
  {
    if w == "" {
      assert w + rest == rest;
    } else {
      WordPrefix(w[1..], rest);
      assert (w + rest)[1..] == w[1..] + rest;
    }
  }

  lemma FirstWord(w: string, rest: string)
    requires w != "" && forall j :: 0 <= j < |w| ==> SlugChar(w[j])
    requires rest == "" || !SlugChar(rest[0])
    ensures Words(w + rest) == [w] + Words(rest)
  {
    WordPrefix(w, rest);
    assert (w + rest)[|w|..] == rest;
  }

  /** Reading the words of a slug gives back the words it was made of. */
  lemma {:induction false} WordsOfDashed(words: seq<string>)
    requires AreWords(words)
    ensures Words(Dashed(words)) == words
  {
    if words == [] {
    } else if |words| == 1 {
      FirstWord(words[0], "");
      assert words[0] + "" == words[0] && words == [words[0]];
    } else {
      var others := Dashed(words[1..]);
      FirstWord(words[0], "-" + others);
      WordsOfDashed(words[1..]);
      assert Dashed(words) == words[0] + ("-" + others) && ("-" + others)[1..] == others;
    }
  }

  lemma {:induction false} DashedText(words: seq<string>)
    requires AreWords(words)
    ensures forall i :: 0 <= i < |Dashed(words)| ==> SlugChar(Dashed(words)[i]) || Dashed(words)[i] == '-'
  {
    if |words| > 1 {
      DashedText(words[1..]);
    } else if |words| == 1 {
      assert Dashed(words) == words[0];
    }
  }

  /** A result is a slug: words joined by single dashes, so without ':' and unchanged when normalized
      again; and two slugs are equal only if their words are. */
  lemma NormalizedIsSlug(p: Platform, value: string)
    requires LeavesSlugs(p) && NormalizeCity(p, value).Some?
    ensures var city := NormalizeCity(p, value).value;
            var words := Words(p.lower(p.trim(value)));
            && words != [] && AreWords(words) && city == Dashed(words) && Words(city) == words
            && ':' !in city
            && (forall c :: c in city ==> 'a' <= c <= 'z' || '0' <= c <= '9' || c == '-')
            && NormalizeCity(p, city) == Some(city)
  {
    var text := p.lower(p.trim(value));
    var words := Words(text);
    SlugIsWords(text);
    WordsAreWords(text);
    WordsOfDashed(words);
    DashedText(words);
    SlugIsWords(Dashed(words));
  }

  /** It is null exactly when no letter or digit is left after lower-casing. */
  lemma {:induction false} NoWords(s: string)
    ensures Words(s) == [] <==> forall i :: 0 <= i < |s| ==> !('a' <= s[i] <= 'z') && !('0' <= s[i] <= '9')
  {
    if s != "" && !SlugChar(s[0]) {
      NoWords(s[1..]);
      assert forall i :: 0 < i < |s| ==> s[i] == s[1..][i - 1];
    }
  }

  // ---- Keys ----

  datatype Input = Absent | NotText | Text(s: string)
  datatype Key = BadRequest | Key(text: string)

  const DEFAULT_CITY: string := "canberra"
  const LEGACY_REGION: string := "au"

  function Normalize(p: Platform, i: Input): Option<string> {
    if i.Text? then NormalizeCity(p, i.s) else None
  }

  /** `None` is the BadRequest that a city which is given but not usable gets. */
  function ResolveCity(p: Platform, city: Input, region: Input): Option<string> {
    if !city.Absent? then Normalize(p, city)
    else
      var legacy := Normalize(p, region);
      if legacy == Some(LEGACY_REGION) || legacy.None? then Some(DEFAULT_CITY) else legacy
  }

  /** `hash` is the start of the hexadecimal SHA-256 of the preferences' text. */
  function BuildKey(p: Platform, hash: string -> string, city: string, prefs: StableStringify.Value): Key {
    match NormalizeCity(p, city)
    case None => BadRequest
    case Some(c) => Key(c + ":" + hash(StableStringify.Print(prefs)))
  }

  function JoinKey(p: Platform, hash: string -> string, city: Input, region: Input, prefs: StableStringify.Value): Key {
    match ResolveCity(p, city, region)
    case None => BadRequest
    case Some(c) => BuildKey(p, hash, c, prefs)
  }

  /** `queueKey.split(':')[0]`, the region of a session. */
  function BeforeColon(s: string): string {
    if s == "" || s[0] == ':' then "" else [s[0]] + BeforeColon(s[1..])
  }

  lemma {:induction false} BeforeColonOf(c: string, rest: string)
    requires ':' !in c
    ensures BeforeColon(c + ":" + rest) == c
  {
    if c != "" {
      BeforeColonOf(c[1..], rest);
      assert (c + ":" + rest)[1..] == c[1..] + ":" + rest;
    } else {
      assert ("" + ":" + rest)[0] == ':';
    }
  }

  lemma KeyParts(a: string, g: string, b: string, h: string)
    requires ':' !in a && ':' !in b
    ensures a + ":" + g == b + ":" + h <==> a == b && g == h
  {
    BeforeColonOf(a, g);
    BeforeColonOf(b, h);
    assert (a + ":" + g)[|a| + 1..] == g && (b + ":" + h)[|b| + 1..] == h;
  }

  lemma DefaultIsSlug()
    ensures Words(DEFAULT_CITY) == [DEFAULT_CITY] && Dashed([DEFAULT_CITY]) == DEFAULT_CITY
    ensures AreWords([DEFAULT_CITY])
  {
    WordsOfDashed([DEFAULT_CITY]);
  }

  /** `c` contains no colon, and is what it normalizes to. */
  ghost predicate Normal(p: Platform, c: string) {
    ':' !in c && NormalizeCity(p, c) == Some(c)
  }

  lemma TextIsNormal(p: Platform, text: string)
    requires LeavesSlugs(p) && NormalizeCity(p, text).Some?
    ensures Normal(p, NormalizeCity(p, text).value)
  {
    NormalizedIsSlug(p, text);
  }

  lemma DefaultIsNormal(p: Platform)
    requires LeavesSlugs(p)
    ensures Normal(p, DEFAULT_CITY)
  {
    DefaultIsSlug();
    DashedText([DEFAULT_CITY]);
    assert p.lower(p.trim(DEFAULT_CITY)) == DEFAULT_CITY;
    SlugIsWords(DEFAULT_CITY);
  }

  lemma ResolvedIsSlug(p: Platform, city: Input, region: Input)
    requires LeavesSlugs(p) && ResolveCity(p, city, region).Some?
    ensures var c := ResolveCity(p, city, region).value; ':' !in c && NormalizeCity(p, c) == Some(c)
  {
    if city.Text? {
      TextIsNormal(p, city.s);
    } else if region.Text? && NormalizeCity(p, region.s).Some? {
      TextIsNormal(p, region.s);
    }
    DefaultIsNormal(p);
  }

  /** A given city is the one that counts, or none does; without one the region is taken, except that "au", and
      a region that is missing or without a letter or digit, stand for Canberra. */
  lemma CityCases(p: Platform, city: Input, region: Input)
    ensures var words := (i: Input) => if i.Text? then Words(p.lower(p.trim(i.s))) else [];
            ResolveCity(p, city, region)
            == if !city.Absent? then (if words(city) == [] then None else Some(Dashed(words(city))))
               else if words(region) == [] || Dashed(words(region)) == "au" then Some("canberra")
               else Some(Dashed(words(region)))
  {
    if city.Text? { SlugIsWords(p.lower(p.trim(city.s))); }
    if region.Text? { SlugIsWords(p.lower(p.trim(region.s))); }
  }

  lemma UnresolvedIff(p: Platform, city: Input, region: Input)
    ensures ResolveCity(p, city, region).None? <==>
              city.NotText? || (city.Text? && Words(p.lower(p.trim(city.s))) == [])
  {
    if city.Text? {
      SlugIsWords(p.lower(p.trim(city.s)));
    }
  }

  /** The city of a join is normalized twice, the second time without effect. */
  lemma ResolvedKey(p: Platform, hash: string -> string, city: Input, region: Input, prefs: StableStringify.Value)
    requires LeavesSlugs(p) && ResolveCity(p, city, region).Some?
    ensures JoinKey(p, hash, city, region, prefs)
         == Key(ResolveCity(p, city, region).value + ":" + hash(StableStringify.Print(prefs)))
  {
    ResolvedIsSlug(p, city, region);
  }

  /** A join is refused exactly for a city that is given without a letter or digit; otherwise the
      region of a session made from its key is the city it resolved to. */
  lemma RegionIsTheCity(p: Platform, hash: string -> string, city: Input, region: Input, prefs: StableStringify.Value)
    requires LeavesSlugs(p)
    ensures JoinKey(p, hash, city, region, prefs).BadRequest? <==>
              city.NotText? || (city.Text? && Words(p.lower(p.trim(city.s))) == [])
    ensures var k := JoinKey(p, hash, city, region, prefs);
            k.Key? ==> ResolveCity(p, city, region) == Some(BeforeColon(k.text))
  {
    UnresolvedIff(p, city, region);
    if ResolveCity(p, city, region).Some? {
      ResolvedKey(p, hash, city, region, prefs);
      ResolvedIsSlug(p, city, region);
      BeforeColonOf(ResolveCity(p, city, region).value, hash(StableStringify.Print(prefs)));
    }
  }

  /** Two joins meet in one queue exactly if their cities are equal and their preferences alike (without
      infinities: equal up to key order), as far as the hash tells the texts apart and no key contains
      `":`. */
  lemma SameQueueIff(p: Platform, hash: string -> string, c: string, v: StableStringify.Value,
                     d: string, w: StableStringify.Value)
    requires LeavesSlugs(p) && NormalizeCity(p, c).Some? && NormalizeCity(p, d).Some?
    requires StableStringify.Json(v) && StableStringify.Json(w)
    requires StableStringify.KeysOk(v) && StableStringify.KeysOk(w)
    requires hash(StableStringify.Print(v)) == hash(StableStringify.Print(w)) ==>
               StableStringify.Print(v) == StableStringify.Print(w)
    ensures BuildKey(p, hash, c, v) == BuildKey(p, hash, d, w) <==>
            NormalizeCity(p, c) == NormalizeCity(p, d) && StableStringify.Alike(v, w)
    ensures StableStringify.Finite(v) && StableStringify.Finite(w) ==>
              (StableStringify.Alike(v, w) <==> StableStringify.Same(v, w))
  {
    StableStringify.SameTextIff(v, w);
    NormalizedIsSlug(p, c);
    NormalizedIsSlug(p, d);
    KeyParts(NormalizeCity(p, c).value, hash(StableStringify.Print(v)),
             NormalizeCity(p, d).value, hash(StableStringify.Print(w)));
  }
}
