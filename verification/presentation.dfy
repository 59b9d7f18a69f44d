/**
 * The pure derivations inside the presentation of a quote: the flame
 * indicator, the burn-level message, whether the setup is shown, how a long
 * punchline is broken into parts and paced, and the per-character pause of
 * the typewriter effect. Printing and sleeping are not modelled; pacing is
 * counted in multiples of the base delay.
 */
module Presentation {
  import Text

  // ---------------------------------------------------------------------------
  // Flame indicator

  /**
   * How many flames `"🔥" * min(difficulty // 2, 5)` shows (a negative
   * repetition count gives the empty string).
   */
  function FlameCount(difficulty: int): (n: nat)
    ensures n <= 5
    ensures n == 5 <==> difficulty >= 10
    ensures 0 <= difficulty < 10 ==> 2 * n <= difficulty < 2 * n + 2
    ensures difficulty < 2 ==> n == 0
  {
    var half := difficulty / 2;
    if half < 0 then 0 else if half < 5 then half else 5
  }

  /** A harder quote never shows fewer flames. */
  lemma FlameCountMonotone(d1: int, d2: int)
    requires d1 <= d2
    ensures FlameCount(d1) <= FlameCount(d2)
  {
  }

  // ---------------------------------------------------------------------------
  // Burn level

  datatype Tier = Sweet | Sharp | Savage | CareersEnded

  /** The position of a tier, from mildest to harshest. */
  function Rank(t: Tier): nat
  {
    match t
    case Sweet => 0
    case Sharp => 1
    case Savage => 2
    case CareersEnded => 3
  }

  /** The burn-level classification; each difficulty falls in exactly one band. */
  function BurnTier(difficulty: int): (t: Tier)
    ensures t == CareersEnded <==> 9 <= difficulty
    ensures t == Savage <==> 7 <= difficulty < 9
    ensures t == Sharp <==> 5 <= difficulty < 7
    ensures t == Sweet <==> difficulty < 5
  {
    if difficulty >= 9 then CareersEnded
    else if difficulty >= 7 then Savage
    else if difficulty >= 5 then Sharp
    else Sweet
  }

  /** A higher difficulty never yields a lower tier. */
  lemma BurnTierMonotone(d1: int, d2: int)
    requires d1 <= d2
    ensures Rank(BurnTier(d1)) <= Rank(BurnTier(d2))
  {
  }

  /** The message typed for each tier. */
  function BurnMessage(t: Tier): string
  {
    match t
    case CareersEnded => "\U{1F480} POLITICAL CAREERS: ENDED"
    case Savage => "\U{1F525} BURN LEVEL: SAVAGE"
    case Sharp => "\U{1F60F} WIT LEVEL: SHARP"
    case Sweet => "\U{1F60A} CHARM LEVEL: SWEET"
  }

  /** Each tier has its own message, so the message typed tells the tier. */
  lemma BurnMessageDistinct(t1: Tier, t2: Tier)
    ensures BurnMessage(t1) == BurnMessage(t2) <==> t1 == t2
  {
    if t1 != t2 {
      assert BurnMessage(t1)[0] != BurnMessage(t2)[0];
    }
  }

  // ---------------------------------------------------------------------------
  // Setup

  /** `setup and setup.strip()`: the setup is presented. */
  function SetupShown(setup: string): (shown: bool)
    ensures shown <==> exists i :: 0 <= i < |setup| && !Text.IsSpace(setup[i])
  {
    Text.StripEmpty(setup);
    setup != "" && Text.Strip(setup) != ""
  }

  // ---------------------------------------------------------------------------
  // Punchline

  /** The separator a long punchline is broken at. */
  const Break: string := ". "

  /** The longest punchline typed in one go. */
  const MaxUnbroken: nat := 80

  /** Each chunk after a break, with the break put back in front of it. */
  function Prefixed(chunks: seq<string>): (parts: seq<string>)
    ensures |parts| == |chunks|
    ensures forall k :: 0 <= k < |parts| ==> parts[k] == Break + chunks[k]
  {
    seq(|chunks|, k requires 0 <= k < |chunks| => Break + chunks[k])
  }

  /** The parts typed one after another: a punchline longer than 80 characters that contains ". " is split at each ". ". */
  function PunchlineParts(punchline: string): (parts: seq<string>)
    ensures |parts| >= 1
    ensures |parts| > 1 <==> |punchline| > MaxUnbroken && Text.Contains(punchline, Break)
    ensures |parts| == 1 ==> parts[0] == punchline
    ensures |parts| > 1 ==> !Text.Contains(parts[0], Break)
    ensures forall k :: 1 <= k < |parts| ==>
              |parts[k]| >= |Break| && parts[k][..|Break|] == Break && !Text.Contains(parts[k][|Break|..], Break)
  {
    if |punchline| > MaxUnbroken && Text.Contains(punchline, Break) then
      var chunks := Text.Split(punchline, Break);
      var parts := [chunks[0]] + Prefixed(chunks[1..]);
      assert forall k :: 1 <= k < |parts| ==> parts[k] == Break + chunks[k];
      assert forall k :: 1 <= k < |parts| ==> parts[k][|Break|..] == chunks[k];
      parts
    else [punchline]
  }

  /** Joining a chunk list is concatenating its first chunk and the rest with the break in front. */
  lemma {:induction false} ConcatPrefixed(x: string, chunks: seq<string>)
    ensures Text.Concat([x] + Prefixed(chunks)) == Text.Join([x] + chunks, Break)
    decreases |chunks|
  {
    if chunks == [] {
      assert [x] + Prefixed(chunks) == [x];
    } else {
      var rest := chunks[1..];
      ConcatPrefixed(chunks[0], rest);
      assert ([x] + Prefixed(chunks))[1..] == Prefixed(chunks);
      assert Prefixed(chunks) == [Break + chunks[0]] + Prefixed(rest);
      assert Prefixed(chunks)[1..] == Prefixed(rest);
      assert ([chunks[0]] + Prefixed(rest))[1..] == Prefixed(rest);
      assert ([x] + chunks)[1..] == chunks;
      assert [chunks[0]] + rest == chunks;
    }
  }

  /** Typing the parts one after another reproduces the punchline exactly. */
  lemma PartsRoundTrip(punchline: string)
    ensures Text.Concat(PunchlineParts(punchline)) == punchline
  {
    if |punchline| > MaxUnbroken && Text.Contains(punchline, Break) {
      var chunks := Text.Split(punchline, Break);
      ConcatPrefixed(chunks[0], chunks[1..]);
      assert [chunks[0]] + chunks[1..] == chunks;
      Text.JoinSplit(punchline, Break);
    } else {
      assert Text.Concat([punchline]) == punchline + Text.Concat([]);
    }
  }

  /** One step of the punchline reveal: typing a part, or the 1.5-second pause between parts. */
  datatype Beat = Type(text: string) | Pause

  /** The texts typed, in order. */
  function Typed(script: seq<Beat>): seq<string>
  {
    if script == [] then []
    else
      var last := script[|script| - 1];
      Typed(script[..|script| - 1]) + (if last.Type? then [last.text] else [])
  }

  /** The number of pauses. */
  function Pauses(script: seq<Beat>): nat
  {
    if script == [] then 0
    else Pauses(script[..|script| - 1]) + (if script[|script| - 1].Pause? then 1 else 0)
  }

  /** Parts and pauses alternate, starting with a part. */
  predicate Alternates(script: seq<Beat>)
  {
    forall k :: 0 <= k < |script| ==> (script[k].Pause? <==> k % 2 == 1)
  }

  /** Appending the beat due at the next position keeps the alternation. */
  lemma AlternatesAppend(script: seq<Beat>, b: Beat)
    requires Alternates(script)
    requires b.Pause? <==> |script| % 2 == 1
    ensures Alternates(script + [b])
  {
  }

  /** In an alternating script no pause is followed by another pause. */
  lemma AlternatesNoDoublePause(script: seq<Beat>)
    requires Alternates(script)
    ensures forall i :: 0 <= i < |script| - 1 && script[i].Pause? ==> script[i + 1].Type?
  {
    forall i | 0 <= i < |script| - 1 && script[i].Pause?
      ensures script[i + 1].Type?
    {
      assert i % 2 == 1;
      assert (i + 1) % 2 == 0;
    }
  }

  /** The loop over the parts: each typed in turn, with a pause between consecutive ones. */
  method RevealParts(parts: seq<string>) returns (script: seq<Beat>)
    requires |parts| >= 1
    ensures Typed(script) == parts
    ensures Pauses(script) == |parts| - 1
    ensures |script| == 2 * |parts| - 1
    ensures Alternates(script)
  {
    script := [];
    var i := 0;
    while i < |parts|
      invariant 0 <= i <= |parts|
      invariant Typed(script) == parts[..i]
      invariant Pauses(script) == if i < |parts| then i else i - 1
      invariant |script| == if i == 0 then 0 else if i < |parts| then 2 * i else 2 * i - 1
      invariant Alternates(script)
    {
      ghost var before := script;
      AlternatesAppend(script, Type(parts[i]));
      script := script + [Type(parts[i])];
      assert script[..|script| - 1] == before;
      assert parts[..i + 1] == parts[..i] + [parts[i]];
      if i < |parts| - 1 {
        ghost var typed := script;
        AlternatesAppend(script, Pause);
        script := script + [Pause];
        assert script[..|script| - 1] == typed;
      }
      i := i + 1;
    }
    assert parts[..|parts|] == parts;
  }

  /**
   * The reveal of the punchline: each part typed in turn, with one pause
   * between consecutive parts and none after the last.
   */
  method RevealPunchline(punchline: string) returns (script: seq<Beat>)
    ensures Typed(script) == PunchlineParts(punchline)
    ensures Text.Concat(Typed(script)) == punchline
    ensures Pauses(script) == |Typed(script)| - 1
    ensures |script| == 2 * |Typed(script)| - 1
    ensures Alternates(script)
    ensures script[0].Type? && script[|script| - 1].Type?
    ensures forall i :: 0 <= i < |script| - 1 && script[i].Pause? ==> script[i + 1].Type?
  {
    PartsRoundTrip(punchline);
    if |punchline| > MaxUnbroken && Text.Contains(punchline, Break) {
      script := RevealParts(PunchlineParts(punchline));
    } else {
      script := [Type(punchline)];
      assert script[..0] == [];
      assert Typed(script) == [punchline];
    }
    AlternatesNoDoublePause(script);
  }

  // ---------------------------------------------------------------------------
  // Typewriter pacing

  /** The characters the typewriter lingers on. */
  const PauseChars: string := ",.?!"

  /** The delay after typing a character, in multiples of the base delay. */
  function PauseUnits(c: char): (m: nat)
    ensures m == 10 <==> c in PauseChars
    ensures m == 1 <==> c !in PauseChars
  {
    if c in PauseChars then 10 else 1
  }

  /** How many characters of `text` are pause characters. */
  function PauseCharCount(text: string): (n: nat)
    ensures n <= |text|
  {
    if text == [] then 0
    else PauseCharCount(text[..|text| - 1]) + (if text[|text| - 1] in PauseChars then 1 else 0)
  }

  /** The total delay of typing `text` with pauses, in multiples of the base delay. */
  method TypingDelay(text: string) returns (units: nat)
    ensures units == |text| + 9 * PauseCharCount(text)
    ensures |text| <= units <= 10 * |text|
  {
    units := 0;
    for i := 0 to |text|
      invariant units == i + 9 * PauseCharCount(text[..i])
    {
      assert text[..i + 1][..i] == text[..i];
      units := units + PauseUnits(text[i]);
    }
    assert text[..|text|] == text;
  }

  /** Pause characters are counted piece by piece. */
  lemma {:induction false} PauseCharCountConcat(a: string, b: string)
    ensures PauseCharCount(a + b) == PauseCharCount(a) + PauseCharCount(b)
    decreases |b|
  {
    if b != [] {
      var init := b[..|b| - 1];
      PauseCharCountConcat(a, init);
      assert (a + b)[..|a + b| - 1] == a + init;
    } else {
      assert a + b == a;
    }
  }

  /** The pause characters of all the parts together. */
  function PartsPauseCharCount(parts: seq<string>): nat
  {
    if parts == [] then 0 else PauseCharCount(parts[0]) + PartsPauseCharCount(parts[1..])
  }

  lemma {:induction false} PartsPauseCharCountConcat(parts: seq<string>)
    ensures PartsPauseCharCount(parts) == PauseCharCount(Text.Concat(parts))
  {
    if parts != [] {
      PartsPauseCharCountConcat(parts[1..]);
      PauseCharCountConcat(parts[0], Text.Concat(parts[1..]));
    }
  }

  /** Splitting a punchline into parts leaves its per-character pacing unchanged. */
  lemma SplitKeepsPacing(punchline: string)
    ensures PartsPauseCharCount(PunchlineParts(punchline)) == PauseCharCount(punchline)
  {
    PartsPauseCharCountConcat(PunchlineParts(punchline));
    PartsRoundTrip(punchline);
  }
}
