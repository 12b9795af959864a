/**
 * Address extraction (`detectSolanaTokenAddress`): the listing-URL pattern,
 * the outcome of the pair lookup it triggers, and the generic base-58 scan.
 * Both regular expressions are written out as scans over the message.
 */
module AddressDetection {
  import opened Wrappers

  /** Bounds of the `{32,44}` quantifier shared by both patterns. */
  const MinLength: nat := 32
  const MaxLength: nat := 44

  /** The literal part of the listing-URL pattern, `dexscreener\.com\/solana\/`. */
  const DexPrefix: string := "dexscreener.com/solana/"

  /** The character class `[1-9A-HJ-NP-Za-km-z]`: base-58, so no `0`, `I`, `O` or `l`. */
  predicate IsBase58(c: char)
    ensures IsBase58(c) ==> c != '0' && c != 'I' && c != 'O' && c != 'l'
    ensures IsBase58(c) ==> ('0' <= c <= '9') || ('A' <= c <= 'Z') || ('a' <= c <= 'z')
  {
    ('1' <= c <= '9') || ('A' <= c <= 'H') || ('J' <= c <= 'N') ||
    ('P' <= c <= 'Z') || ('a' <= c <= 'k') || ('m' <= c <= 'z')
  }

  predicate AllBase58(s: string)
  {
    forall i :: 0 <= i < |s| ==> IsBase58(s[i])
  }

  /** What either pattern captures: 32 to 44 base-58 characters. */
  predicate IsCandidate(s: string)
  {
    MinLength <= |s| <= MaxLength && AllBase58(s)
  }

  /** Length of the longest prefix of `s` made of base-58 characters. */
  function RunLength(s: string): (n: nat)
    ensures n <= |s|
    ensures AllBase58(s[..n])
    ensures n < |s| ==> !IsBase58(s[n])
    decreases |s|
  {
    if s == [] || !IsBase58(s[0]) then 0
    else
      var n := 1 + RunLength(s[1..]);
      assert forall i :: 1 <= i < n ==> s[..n][i] == s[1..][..n - 1][i - 1];
      n
  }

  /** How many characters the greedy `{32,44}` takes at the start of `s`. */
  function Greedy(s: string): (n: nat)
    ensures n <= RunLength(s) && n <= MaxLength
    ensures n == MaxLength || n == RunLength(s)
  {
    if RunLength(s) < MaxLength then RunLength(s) else MaxLength
  }

  /** The text a greedy `[1-9A-HJ-NP-Za-km-z]{32,44}` matches at the start of `s`. */
  function GreedyMatch(s: string): (m: string)
    requires RunLength(s) >= MinLength
    ensures IsCandidate(m)
    ensures |m| <= |s| && forall k :: 0 <= k < |m| ==> m[k] == s[k]
    ensures |m| == MaxLength || |m| == RunLength(s)
  {
    var n := Greedy(s);
    assert forall i :: 0 <= i < n ==> s[..n][i] == s[..RunLength(s)][i];
    s[..n]
  }

  /** A run of at least 32 base-58 characters starts at position `i` of `s`. */
  predicate LongRunAt(s: string, i: int)
  {
    0 <= i <= |s| && RunLength(s[i..]) >= MinLength
  }

  /** Some position of `s` starts a run of at least 32 base-58 characters. */
  ghost predicate HasLongRun(s: string)
  {
    exists i :: LongRunAt(s, i)
  }

  /** Positions of `s[1..]` are those of `s`, one further on. */
  lemma {:induction false} LongRunShift(s: string, j: int)
    requires |s| > 0 && j >= 0
    ensures LongRunAt(s[1..], j) <==> LongRunAt(s, j + 1)
    ensures LongRunAt(s, 0) <==> RunLength(s) >= MinLength
  {
    assert s[0..] == s;
    if 0 <= j <= |s| - 1 {
      assert s[1..][j..] == s[j + 1..];
    }
  }

  // ---------------------------------------------------------------------
  // The generic scan: `message.match(/[1-9A-HJ-NP-Za-km-z]{32,44}/g) || []`
  // ---------------------------------------------------------------------

  /**
   * Global matching of the base-58 pattern: a match is tried at each
   * position in turn; where one starts, it is taken greedily and the search
   * resumes just after it, otherwise the search moves on by one character.
   */
  function Scan(s: string): (ms: seq<string>)
    ensures forall k :: 0 <= k < |ms| ==> IsCandidate(ms[k])
    decreases |s|
  {
    if s == [] then []
    else if RunLength(s) >= MinLength then
      var m := GreedyMatch(s);
      [m] + Scan(s[|m|..])
    else Scan(s[1..])
  }

  /** The `filter` keeping matches whose length is between 32 and 44. */
  function KeepInRange(ms: seq<string>): (r: seq<string>)
    ensures |r| <= |ms|
    ensures forall k :: 0 <= k < |r| ==> MinLength <= |r[k]| <= MaxLength && r[k] in ms
    decreases |ms|
  {
    if ms == [] then []
    else if MinLength <= |ms[0]| <= MaxLength then [ms[0]] + KeepInRange(ms[1..])
    else KeepInRange(ms[1..])
  }

  /** The length filter drops nothing from a list of candidates. */
  lemma {:induction false} KeepInRangeKeepsCandidates(ms: seq<string>)
    requires forall k :: 0 <= k < |ms| ==> IsCandidate(ms[k])
    ensures KeepInRange(ms) == ms
    decreases |ms|
  {
    if ms != [] {
      KeepInRangeKeepsCandidates(ms[1..]);
    }
  }

  /** The generic path: the global scan followed by its length filter, which keeps every match. */
  function GenericScan(message: string): (r: seq<string>)
    ensures r == Scan(message)
  {
    KeepInRangeKeepsCandidates(Scan(message));
    KeepInRange(Scan(message))
  }

  // ---------------------------------------------------------------------
  // The generic scan against the declarative reading of the global regex
  // ---------------------------------------------------------------------

  /** The leftmost position of `s` where the base-58 pattern matches is `i`. */
  ghost predicate FirstMatchAt(s: string, i: int)
  {
    LongRunAt(s, i) && forall j :: 0 <= j < i ==> !LongRunAt(s, j)
  }

  /** A long run that does not start at the first character starts later. */
  lemma {:induction false} LongRunPastFirst(s: string)
    requires HasLongRun(s) && RunLength(s) < MinLength
    ensures |s| > 0 && HasLongRun(s[1..])
  {
    var i :| LongRunAt(s, i);
    LongRunShift(s, if i == 0 then 0 else i - 1);
  }

  /** The leftmost match of `s[1..]` is the leftmost of `s` when none starts at 0. */
  lemma {:induction false} LeftmostShift(s: string, i: int)
    requires |s| > 0 && RunLength(s) < MinLength && FirstMatchAt(s[1..], i)
    ensures FirstMatchAt(s, i + 1)
  {
    LongRunShift(s, i);
    forall j | 0 <= j < i + 1
      ensures !LongRunAt(s, j)
    {
      LongRunShift(s, if j == 0 then 0 else j - 1);
    }
  }

  /** Where a run of 32 occurs, a leftmost one does. */
  lemma {:induction false} LeftmostExists(s: string)
    requires HasLongRun(s)
    ensures exists i :: FirstMatchAt(s, i)
    decreases |s|
  {
    if RunLength(s) >= MinLength {
      LongRunShift(s, 0);
      assert FirstMatchAt(s, 0);
    } else {
      LongRunPastFirst(s);
      LeftmostExists(s[1..]);
      var i :| FirstMatchAt(s[1..], i);
      LeftmostShift(s, i);
    }
  }

  /** The leftmost position where a run of 32 base-58 characters starts. */
  ghost function LeftmostRun(s: string): (i: nat)
    requires HasLongRun(s)
    ensures FirstMatchAt(s, i)
  {
    LeftmostExists(s);
    var i :| FirstMatchAt(s, i);
    i
  }

  /** The leftmost start of a run of 32, if there is one. */
  ghost function Leftmost(s: string): (r: Option<nat>)
    ensures r.None? <==> !HasLongRun(s)
    ensures r.Some? ==> r.value <= |s|
  {
    if HasLongRun(s) then Some(LeftmostRun(s)) else None
  }

  /**
   * What the global regex returns, read declaratively: nothing when no
   * position starts a run of 32 base-58 characters, else the greedy match at
   * the leftmost such position followed by the matches in the text after it.
   */
  ghost function RegexMatches(s: string): (ms: seq<string>)
    ensures forall k :: 0 <= k < |ms| ==> IsCandidate(ms[k])
    decreases |s|
  {
    match Leftmost(s)
    case None => []
    case Some(i) =>
      var n := Greedy(s[i..]);
      assert s[i..][..n] == GreedyMatch(s[i..]);
      [s[i..][..n]] + RegexMatches(s[i + n..])
  }

  /** The scan finds nothing exactly when no run of 32 base-58 characters occurs. */
  lemma {:induction false} ScanEmptyIff(s: string)
    ensures Scan(s) == [] <==> !HasLongRun(s)
    decreases |s|
  {
    if s == [] {
      assert forall i :: !LongRunAt(s, i);
    } else if RunLength(s) >= MinLength {
      LongRunShift(s, 0);
    } else {
      ScanEmptyIff(s[1..]);
      if HasLongRun(s) {
        LongRunPastFirst(s);
      }
      if HasLongRun(s[1..]) {
        var i :| LongRunAt(s[1..], i);
        LongRunShift(s, i);
      }
    }
  }

  /** Positions where no match starts are passed over one at a time. */
  lemma {:induction false} ScanSkips(s: string, i: int)
    requires 0 <= i <= |s|
    requires forall j :: 0 <= j < i ==> !LongRunAt(s, j)
    ensures Scan(s) == Scan(s[i..])
    decreases i
  {
    if i > 0 {
      LongRunShift(s, 0);
      forall j | 0 <= j < i - 1
        ensures !LongRunAt(s[1..], j)
      {
        LongRunShift(s, j);
      }
      ScanSkips(s[1..], i - 1);
      assert s[1..][i - 1..] == s[i..];
    }
  }

  /** Where a run of 32 starts, the scan takes the greedy match and carries on after it. */
  lemma {:induction false} ScanAtLeftmost(s: string) returns (i: nat)
    requires HasLongRun(s)
    ensures Leftmost(s) == Some(i)
    ensures Scan(s) == [s[i..][..Greedy(s[i..])]] + Scan(s[i + Greedy(s[i..])..])
  {
    i := LeftmostRun(s);
    ScanSkips(s, i);
    var t := s[i..];
    assert GreedyMatch(t) == t[..Greedy(t)];
    assert t[Greedy(t)..] == s[i + Greedy(t)..];
  }

  /** One step of the declarative reading, where a run of 32 occurs. */
  lemma {:induction false} RegexMatchesStep(s: string, i: nat)
    requires Leftmost(s) == Some(i)
    ensures RegexMatches(s) == [s[i..][..Greedy(s[i..])]] + RegexMatches(s[i + Greedy(s[i..])..])
  {
  }

  /** The scan returns what the global regex returns. */
  lemma {:induction false} ScanIsRegexMatches(s: string)
    ensures Scan(s) == RegexMatches(s)
    decreases |s|
  {
    if !HasLongRun(s) {
      ScanEmptyIff(s);
    } else {
      var i := ScanAtLeftmost(s);
      RegexMatchesStep(s, i);
      ScanIsRegexMatches(s[i + Greedy(s[i..])..]);
    }
  }

  // ---------------------------------------------------------------------
  // How the scan behaves on concrete shapes of text
  // ---------------------------------------------------------------------

  /** A character outside the alphabet ends a run. */
  lemma {:induction false} RunLengthStopsAt(x: string, c: char, y: string)
    requires !IsBase58(c)
    ensures RunLength(x + [c] + y) == RunLength(x)
    decreases |x|
  {
    if x == [] {
      assert x + [c] + y == [c] + y;
    } else if IsBase58(x[0]) {
      assert (x + [c] + y)[1..] == x[1..] + [c] + y;
      RunLengthStopsAt(x[1..], c, y);
    }
  }

  /**
   * A character outside the alphabet splits the scan: the matches of
   * `x + [c] + y` are those of `x` followed by those of `y`, in order,
   * duplicates included.
   */
  lemma {:induction false} ScanSplitsAt(x: string, c: char, y: string)
    requires !IsBase58(c)
    ensures Scan(x + [c] + y) == Scan(x) + Scan(y)
    decreases |x|
  {
    var s := x + [c] + y;
    RunLengthStopsAt(x, c, y);
    if x == [] {
      assert s[1..] == y;
    } else if RunLength(x) >= MinLength {
      var n := Greedy(x);
      assert s[..n] == x[..n];
      assert s[n..] == x[n..] + [c] + y;
      ScanSplitsAt(x[n..], c, y);
    } else {
      assert s[1..] == x[1..] + [c] + y;
      ScanSplitsAt(x[1..], c, y);
    }
  }

  /** Text shorter than 32 characters holds no match. */
  lemma {:induction false} ShortTextHasNoMatch(s: string)
    requires |s| < MinLength
    ensures Scan(s) == []
  {
    ScanEmptyIff(s);
  }

  /** A candidate standing alone is matched whole, exactly once. */
  lemma {:induction false} ScanOfCandidate(w: string)
    requires IsCandidate(w)
    ensures Scan(w) == [w]
  {
    assert w[..|w|] == w;
    assert w[|w|..] == [];
  }

  /**
   * A base-58 run longer than 44 characters yields its first 44 characters
   * as one match and is scanned again from there; a run shorter than 32
   * yields nothing.
   */
  lemma {:induction false} LongRunSplits(s: string)
    requires AllBase58(s)
    ensures |s| < MinLength ==> Scan(s) == []
    ensures |s| > MaxLength ==> Scan(s) == [s[..MaxLength]] + Scan(s[MaxLength..])
  {
    if |s| < MinLength {
      ShortTextHasNoMatch(s);
    }
  }

  /** Two candidates separated by spaces and a short word come back in order, duplicates kept. */
  lemma {:induction false} AppearanceOrderKept(a1: string, a2: string)
    requires IsCandidate(a1) && IsCandidate(a2)
    ensures Scan(a1 + " foo " + a2 + " " + a1) == [a1, a2, a1]
  {
    var tail := a2 + [' '] + a1;
    var middle := "foo" + [' '] + tail;
    assert a1 + " foo " + a2 + " " + a1 == a1 + [' '] + middle;
    ScanSplitsAt(a2, ' ', a1);
    ScanOfCandidate(a1);
    ScanOfCandidate(a2);
    ShortTextHasNoMatch("foo");
    ScanSplitsAt("foo", ' ', tail);
    ScanSplitsAt(a1, ' ', middle);
  }

  // ---------------------------------------------------------------------
  // The listing-URL pattern: /dexscreener\.com\/solana\/([1-9A-HJ-NP-Za-km-z]{32,44})/
  // ---------------------------------------------------------------------

  /** The listing-URL pattern matches at position `i` of `s`. */
  predicate DexAt(s: string, i: int)
    ensures DexAt(s, i) ==> 0 <= i && i + |DexPrefix| + MinLength <= |s|
  {
    0 <= i && i + |DexPrefix| <= |s| && s[i..i + |DexPrefix|] == DexPrefix && LongRunAt(s, i + |DexPrefix|)
  }

  /** The capture group of a listing-URL match at position `i`. */
  function CaptureAt(s: string, i: int): (id: string)
    requires DexAt(s, i)
    ensures IsCandidate(id)
    ensures |id| <= |s[i + |DexPrefix|..]| && id == s[i + |DexPrefix|..][..|id|]
    ensures |id| == MaxLength || |id| == RunLength(s[i + |DexPrefix|..])
  {
    GreedyMatch(s[i + |DexPrefix|..])
  }

  /** The leftmost position of `s` where the listing-URL pattern matches is `i`. */
  ghost predicate FirstDexAt(s: string, i: int)
  {
    DexAt(s, i) && forall j :: 0 <= j < i ==> !DexAt(s, j)
  }

  /** The first listing-URL match at or after position `from`, as its capture group. */
  function DexSearch(s: string, from: nat): (r: Option<string>)
    ensures r.Some? ==> IsCandidate(r.value)
    decreases |s| + 1 - from
  {
    if from > |s| then None
    else if DexAt(s, from) then Some(CaptureAt(s, from))
    else DexSearch(s, from + 1)
  }

  /** The capture group of the leftmost listing-URL match, if the pattern matches at all. */
  function DexCapture(s: string): (r: Option<string>)
    ensures r.Some? ==> IsCandidate(r.value)
  {
    DexSearch(s, 0)
  }

  /** The search from `from` returns the capture at the first match at or after `from`, if any. */
  lemma {:induction false} DexSearchFindsFirst(s: string, from: nat)
    ensures DexSearch(s, from).None? ==> forall i :: from <= i ==> !DexAt(s, i)
    ensures DexSearch(s, from).Some? ==>
      exists i :: from <= i && DexAt(s, i) && (forall j :: from <= j < i ==> !DexAt(s, j))
                  && DexSearch(s, from).value == CaptureAt(s, i)
    decreases |s| + 1 - from
  {
    if from > |s| {
    } else if DexAt(s, from) {
      assert forall j :: from <= j < from ==> !DexAt(s, j);
    } else {
      DexSearchFindsFirst(s, from + 1);
      if DexSearch(s, from).Some? {
        var i :| from + 1 <= i && DexAt(s, i) && (forall j :: from + 1 <= j < i ==> !DexAt(s, j))
                 && DexSearch(s, from + 1).value == CaptureAt(s, i);
        assert forall j :: from <= j < i ==> !DexAt(s, j);
      }
    }
  }

  /**
   * There is a capture exactly when the listing-URL pattern matches
   * somewhere, and it is the capture at the leftmost match.
   */
  lemma {:induction false} DexCaptureIsLeftmost(s: string)
    ensures DexCapture(s).None? <==> forall i :: !DexAt(s, i)
    ensures DexCapture(s).Some? ==> exists i :: FirstDexAt(s, i) && DexCapture(s).value == CaptureAt(s, i)
    ensures forall i :: FirstDexAt(s, i) ==> DexCapture(s) == Some(CaptureAt(s, i))
  {
    DexSearchFindsFirst(s, 0);
    if DexCapture(s).Some? {
      var k :| 0 <= k && DexAt(s, k) && (forall j :: 0 <= j < k ==> !DexAt(s, j))
               && DexCapture(s).value == CaptureAt(s, k);
      assert FirstDexAt(s, k);
    }
    forall i | FirstDexAt(s, i)
      ensures DexCapture(s) == Some(CaptureAt(s, i))
    {
      var k :| 0 <= k && DexAt(s, k) && (forall j :: 0 <= j < k ==> !DexAt(s, j))
               && DexCapture(s).value == CaptureAt(s, k);
      assert k == i;
    }
  }

  /** The listing-URL pattern needs a run of 32 base-58 characters too. */
  lemma {:induction false} DexCaptureNeedsLongRun(s: string)
    requires DexCapture(s).Some?
    ensures HasLongRun(s)
  {
    DexCaptureIsLeftmost(s);
    var i :| DexAt(s, i);
    assert LongRunAt(s, i + |DexPrefix|);
  }

  /** Without a `.` the listing URL cannot occur. */
  lemma {:induction false} NoDotNoListingUrl(s: string)
    requires '.' !in s
    ensures DexCapture(s) == None
  {
    forall i | 0 <= i && i + |DexPrefix| <= |s|
      ensures !DexAt(s, i)
    {
      assert s[i..i + |DexPrefix|][11] == s[i + 11];
      assert DexPrefix[11] == '.';
    }
    DexCaptureIsLeftmost(s);
  }

  /** Text holding no `d` cannot start the listing URL. */
  lemma {:induction false} NoListingUrlWithoutD(pre: string, rest: string)
    requires 'd' !in pre
    ensures forall j :: 0 <= j < |pre| ==> !DexAt(pre + rest, j)
  {
    var s := pre + rest;
    forall j | 0 <= j < |pre|
      ensures !DexAt(s, j)
    {
      assert s[j] == pre[j];
      if j + |DexPrefix| <= |s| {
        assert s[j..j + |DexPrefix|][0] == s[j];
      }
    }
  }

  /** A listing URL opening the text, followed by a candidate and a space, matches there and captures that candidate. */
  lemma {:induction false} UrlAtStart(id: string, post: string)
    requires IsCandidate(id)
    ensures DexAt(DexPrefix + id + " " + post, 0)
    ensures CaptureAt(DexPrefix + id + " " + post, 0) == id
  {
    var u := DexPrefix + id + " " + post;
    var t := u[|DexPrefix|..];
    assert u[..|DexPrefix|] == DexPrefix;
    assert t == id + [' '] + post;
    RunLengthStopsAt(id, ' ', post);
    assert RunLength(id) == |id|;
    assert t[..|id|] == id;
  }

  /** A listing URL after text holding no `d`, followed by a candidate and a space, captures exactly that candidate. */
  lemma {:induction false} DexCaptureOfUrl(pre: string, id: string, post: string)
    requires 'd' !in pre
    requires IsCandidate(id)
    ensures DexCapture(pre + DexPrefix + id + " " + post) == Some(id)
  {
    var u := DexPrefix + id + " " + post;
    var s := pre + u;
    var p := |pre|;
    assert pre + DexPrefix + id + " " + post == s;
    NoListingUrlWithoutD(pre, u);
    UrlAtStart(id, post);
    assert s[p..] == u;
    assert s[p..][..|DexPrefix|] == s[p..p + |DexPrefix|];
    assert s[p + |DexPrefix|..] == u[|DexPrefix|..];
    assert DexAt(s, p);
    assert FirstDexAt(s, p);
    DexCaptureIsLeftmost(s);
  }

  // ---------------------------------------------------------------------
  // The whole extractor, given the outcome of the pair lookup
  // ---------------------------------------------------------------------

  /**
   * What the pair lookup for a captured id gives back: it throws (network
   * error, non-2xx status, or a first pair without `baseToken`), or
   * it answers with the base-token addresses of its `pairs`, an absent
   * `pairs` being an empty list.
   */
  datatype LookupResult = Throws | Ok(pairs: seq<string>)

  /** The addresses returned, and the id the lookup was asked about, if any. */
  datatype Detection = Detection(addresses: seq<string>, queried: Option<string>)

  /** The lookup resolved `id` to the address `a`. */
  predicate ResolvedTo(lookup: string -> LookupResult, id: string, a: string)
  {
    lookup(id).Ok? && |lookup(id).pairs| > 0 && a == lookup(id).pairs[0]
  }

  /**
   * `detectSolanaTokenAddress`: the lookup is asked about the captured id of a
   * listing URL; a resolved address or, on failure, the id itself is returned
   * alone; otherwise every match of the generic scan is.
   */
  function Detect(message: string, lookup: string -> LookupResult): (d: Detection)
    ensures d.queried == DexCapture(message)
    ensures d.queried.Some? ==> IsCandidate(d.queried.value)
    ensures forall k :: 0 <= k < |d.addresses| ==>
      IsCandidate(d.addresses[k]) || (d.queried.Some? && ResolvedTo(lookup, d.queried.value, d.addresses[k]))
  {
    match DexCapture(message)
    case Some(id) =>
      (match lookup(id)
       case Throws => Detection([id], Some(id))
       case Ok(pairs) =>
         if |pairs| > 0 then Detection([pairs[0]], Some(id))
         else Detection(GenericScan(message), Some(id)))
    case None => Detection(GenericScan(message), None)
  }

  /** Without a run of 32 base-58 characters nothing is returned and no lookup is made. */
  lemma {:induction false} DetectWithoutLongRun(message: string, lookup: string -> LookupResult)
    requires !HasLongRun(message)
    ensures Detect(message, lookup) == Detection([], None)
  {
    if DexCapture(message).Some? {
      DexCaptureNeedsLongRun(message);
    }
    ScanEmptyIff(message);
  }

  /** The extractor returns nothing exactly when the message has no run of 32 base-58 characters. */
  lemma {:induction false} DetectEmptyIff(message: string, lookup: string -> LookupResult)
    ensures Detect(message, lookup).addresses == [] <==> !HasLongRun(message)
  {
    if !HasLongRun(message) {
      DetectWithoutLongRun(message, lookup);
    } else {
      ScanEmptyIff(message);
    }
  }

  /** A resolved listing URL yields exactly the resolved address; the generic scan is not used. */
  lemma {:induction false} DetectResolved(message: string, lookup: string -> LookupResult)
    requires DexCapture(message).Some?
    requires lookup(DexCapture(message).value).Ok? && |lookup(DexCapture(message).value).pairs| > 0
    ensures Detect(message, lookup).addresses == [lookup(DexCapture(message).value).pairs[0]]
    ensures Detect(message, lookup).queried == DexCapture(message)
  {
  }

  /** A failed lookup yields exactly the captured id, a candidate taken at the leftmost URL. */
  lemma {:induction false} DetectLookupFailed(message: string, lookup: string -> LookupResult)
    requires DexCapture(message).Some? && lookup(DexCapture(message).value).Throws?
    ensures Detect(message, lookup).addresses == [DexCapture(message).value]
    ensures Detect(message, lookup).queried == DexCapture(message)
    ensures IsCandidate(DexCapture(message).value)
    ensures exists i :: FirstDexAt(message, i) && DexCapture(message).value == CaptureAt(message, i)
  {
    DexCaptureIsLeftmost(message);
  }

  /**
   * Without a listing URL, or when the lookup answers with no pairs, the
   * result is what the global regex finds in the whole message, URL included.
   */
  lemma {:induction false} DetectScansWholeMessage(message: string, lookup: string -> LookupResult)
    requires DexCapture(message).None? || lookup(DexCapture(message).value) == Ok([])
    ensures Detect(message, lookup).addresses == RegexMatches(message)
    ensures Detect(message, lookup).queried.None? <==> DexCapture(message).None?
  {
    ScanIsRegexMatches(message);
  }

  /** A message without a URL returns its candidates in order of appearance, duplicates kept. */
  lemma {:induction false} DetectKeepsOrderAndDuplicates(a1: string, a2: string, lookup: string -> LookupResult)
    requires IsCandidate(a1) && IsCandidate(a2)
    ensures Detect(a1 + " foo " + a2 + " " + a1, lookup) == Detection([a1, a2, a1], None)
  {
    var msg := a1 + " foo " + a2 + " " + a1;
    assert forall i :: 0 <= i < |a1| ==> a1[i] != '.';
    assert forall i :: 0 <= i < |a2| ==> a2[i] != '.';
    assert '.' !in msg;
    NoDotNoListingUrl(msg);
    AppearanceOrderKept(a1, a2);
  }
}
