/** The value contract every Zenoh sample carries, and its two readers: the C transport and the Rust tool. */
module ValueContract {
  import opened Options
  import opened Strings

  datatype Media = Struct | Flatbuffers
  {
    function Text(): (s: string)
      ensures ';' !in s && MEDIA_PREFIX <= s
    {
      if Struct? then "application/x-synapse-struct" else "application/x-flatbuffers"
    }
  }

  datatype Contract = Contract(media: Media, wireType: string, hash: string)
  {
    function Text(): string {
      Fields(media.Text(), TYPE_FIELD + wireType, SCHEMA_FIELD + hash)
    }
  }

  function Fields(media: string, typeField: string, schemaField: string): string {
    media + ";" + typeField + ";" + schemaField
  }

  const TYPE_FIELD := "type="
  const SCHEMA_FIELD := "schema=sha256-128:"
  const SEPARATOR := ";" + SCHEMA_FIELD
  const MEDIA_PREFIX := "application/x-"
  const LEGACY_PREFIX := "zenoh/bytes;"
  const CONTRACT_MAX: nat := 192

  /** value_contract: a topic without wire type or hash has no contract. */
  function ContractOf(fixedLayout: bool, wireType: Option<string>, hash: Option<string>): Option<Contract> {
    if wireType.None? || hash.None? then None
    else Some(Contract(if fixedLayout then Struct else Flatbuffers, wireType.value, hash.value))
  }

  /** The text of a catalog entry's contract: fixed layouts are bare structs, all others FlatBuffers. */
  lemma ContractText(fixedLayout: bool, wireType: string, hash: string)
    ensures
      var media := if fixedLayout then "application/x-synapse-struct" else "application/x-flatbuffers";
      var contract := ContractOf(fixedLayout, Some(wireType), Some(hash));
      contract.Some? && contract.value.Text() == media + ";type=" + wireType + ";schema=sha256-128:" + hash
  {
    var media := if fixedLayout then "application/x-synapse-struct" else "application/x-flatbuffers";
    assert ContractOf(fixedLayout, Some(wireType), Some(hash)).value.Text()
        == Fields(media, TYPE_FIELD + wireType, SCHEMA_FIELD + hash);
    assert ";" + TYPE_FIELD == ";type=" && ";" + SCHEMA_FIELD == ";schema=sha256-128:";
    FieldsFlatten(media, TYPE_FIELD, wireType, SCHEMA_FIELD, hash);
    hide Contract.Text, Fields;
  }

  lemma FieldsFlatten(media: string, t: string, wireType: string, s: string, hash: string)
    ensures Fields(media, t + wireType, s + hash) == media + (";" + t) + wireType + (";" + s) + hash
  {
  }

  /** contract_string_matches: lengths first, then bytes. */
  predicate Matches(received: string, expected: string) {
    || (|received| == |expected| && received[..|expected|] == expected)
    || (&& |received| == |expected| + 1 && received[0] == ';'
        && received[1..1 + |expected|] == expected)
    || (&& |received| == |LEGACY_PREFIX| + |expected|
        && received[..|LEGACY_PREFIX|] == LEGACY_PREFIX
        && received[|LEGACY_PREFIX|..|LEGACY_PREFIX| + |expected|] == expected)
  }

  /** sample_contract_matches without its warning: the expected text must exist and fit the C buffer. */
  predicate SampleMatches(received: Option<string>, contract: Option<Contract>) {
    && contract.Some? && |contract.value.Text()| < 192
    && received.Some? && Matches(received.value, contract.value.Text())
  }

  /** C accepts exactly three spellings of a contract. */
  lemma ExactlyThreeSpellings(received: string, expected: string)
    ensures Matches(received, expected) <==>
            received == expected || received == ";" + expected || received == "zenoh/bytes;" + expected
  {
    if |received| == |expected| + 1 && received[0] == ';' && received[1..1 + |expected|] == expected {
      assert received == [received[0]] + received[1..1 + |expected|];
    }
    if |received| == |LEGACY_PREFIX| + |expected| {
      assert received == received[..|LEGACY_PREFIX|] + received[|LEGACY_PREFIX|..|LEGACY_PREFIX| + |expected|];
    }
  }

  lemma SamePrefix(prefix: string, a: string, b: string)
    requires prefix + a == prefix + b
    ensures a == b
  {
    assert a == (prefix + a)[|prefix|..] && b == (prefix + b)[|prefix|..];
  }

  lemma TextParts(c: Contract)
    ensures c.Text() == c.media.Text() + ";" + (TYPE_FIELD + (c.wireType + SEPARATOR + c.hash))
  {
    FieldsNest(c.media.Text(), TYPE_FIELD, c.wireType, SCHEMA_FIELD, c.hash);
    hide Media.Text, Fields;
  }

  lemma FieldsNest(media: string, t: string, wireType: string, s: string, hash: string)
    ensures Fields(media, t + wireType, s + hash) == media + ";" + (t + (wireType + (";" + s) + hash))
  {
    assert (t + wireType) + ";" + (s + hash) == t + (wireType + (";" + s) + hash);
    assert media + ";" + (t + wireType) + ";" + (s + hash) == media + ";" + ((t + wireType) + ";" + (s + hash));
  }

  /** Two contracts have the same text when their media types and what follows `type=` agree. */
  lemma SameText(c: Contract, d: Contract)
    ensures c.Text() == d.Text() <==>
            c.media == d.media && c.wireType + SEPARATOR + c.hash == d.wireType + SEPARATOR + d.hash
  {
    TextParts(c);
    TextParts(d);
    hide Contract.Text;
    var restC, restD := c.wireType + SEPARATOR + c.hash, d.wireType + SEPARATOR + d.hash;
    if c.Text() == d.Text() {
      CutAt(';', c.media.Text(), d.media.Text(), TYPE_FIELD + restC, TYPE_FIELD + restD);
      SamePrefix(TYPE_FIELD, restC, restD);
      assert |Struct.Text()| != |Flatbuffers.Text()|;
    }
  }

  /** A separator holds one ';', its first character. */
  lemma InsideSeparator(s: string, i: nat)
    requires OccursAt(s, SEPARATOR, i)
    ensures s[i] == ';' && forall j :: i < j < i + |SEPARATOR| ==> s[j] != ';'
  {
    var place := s[i..i + |SEPARATOR|];
    assert s[i] == place[0];
    assert ';' !in SCHEMA_FIELD;
    forall j | i < j < i + |SEPARATOR|
      ensures s[j] != ';'
    {
      assert s[j] == place[j - i] == SEPARATOR[j - i] == SCHEMA_FIELD[j - i - 1];
    }
  }

  /** So two places of it in a text do not overlap. */
  lemma NoOverlap(s: string, i: nat, j: nat)
    requires OccursAt(s, SEPARATOR, i) && OccursAt(s, SEPARATOR, j) && i < j
    ensures i + |SEPARATOR| <= j
  {
    InsideSeparator(s, i);
    InsideSeparator(s, j);
  }

  lemma OccursInPart(s: string, i: nat, from: nat, to: nat)
    requires OccursAt(s, SEPARATOR, i) && from <= i && i + |SEPARATOR| <= to <= |s|
    ensures Contains(s[from..to], SEPARATOR)
  {
    var part, n := s[from..to], |SEPARATOR|;
    var there, here := part[i - from..i - from + n], s[i..i + n];
    forall k | 0 <= k < n
      ensures there[k] == here[k]
    {
      assert there[k] == part[i - from + k] == s[i + k];
    }
    assert there == here;
    assert OccursAt(part, SEPARATOR, i - from);
  }

  /** Text cut at two different places of the separator has it in the longer head and in the longer tail. */
  lemma CutTwice(a: string, b: string, x: string, y: string)
    requires a + SEPARATOR + b == x + SEPARATOR + y && |a| < |x|
    ensures Contains(x, SEPARATOR) && Contains(b, SEPARATOR)
  {
    var s, n := a + SEPARATOR + b, |SEPARATOR|;
    assert OccursAt(s, SEPARATOR, |a|) && OccursAt(s, SEPARATOR, |x|);
    assert x == s[0..|x|] && b == s[|a| + n..|s|];
    hide OccursAt, Contains;
    NoOverlap(s, |a|, |x|);
    OccursInPart(s, |a|, 0, |x|);
    OccursInPart(s, |x|, |a| + n, |s|);
  }

  lemma SameLengthSameCut(a: string, b: string, x: string, y: string)
    requires a + SEPARATOR + b == x + SEPARATOR + y && |a| == |x|
    ensures a == x && b == y
  {
    var s := a + SEPARATOR + b;
    assert a == s[..|a|] && b == s[|a| + |SEPARATOR|..];
    assert x == s[..|x|] && y == s[|x| + |SEPARATOR|..];
  }

  /** Of two different contracts with one text, one has the separator in its wire type, the other in its hash. */
  lemma SameTextOfTwo(c: Contract, d: Contract)
    requires c.Text() == d.Text()
    ensures || c == d
            || (Contains(c.wireType, SEPARATOR) && Contains(d.hash, SEPARATOR))
            || (Contains(d.wireType, SEPARATOR) && Contains(c.hash, SEPARATOR))
  {
    SameText(c, d);
    hide Contract.Text, Contains;
    if |c.wireType| < |d.wireType| {
      CutTwice(c.wireType, c.hash, d.wireType, d.hash);
    } else if |d.wireType| < |c.wireType| {
      CutTwice(d.wireType, d.hash, c.wireType, c.hash);
    } else {
      SameLengthSameCut(c.wireType, c.hash, d.wireType, d.hash);
    }
  }

  /** A contract's text determines the contract among contracts whose wire types do not hold the separator. */
  lemma TextIsInjective(c: Contract, d: Contract)
    requires !Contains(c.wireType, SEPARATOR) && !Contains(d.wireType, SEPARATOR) && c.Text() == d.Text()
    ensures c == d
  {
    SameTextOfTwo(c, d);
  }

  /** Nothing but c has c's text. */
  ghost predicate Unambiguous(c: Contract) {
    forall d: Contract :: d.Text() == c.Text() ==> d == c
  }

  /** A text is unambiguous if and only if neither wire type nor hash holds the separator between them. */
  lemma UnambiguousWithoutSeparator(c: Contract)
    ensures Unambiguous(c) <==> !Contains(c.wireType, SEPARATOR) && !Contains(c.hash, SEPARATOR)
  {
    if !Contains(c.wireType, SEPARATOR) && !Contains(c.hash, SEPARATOR) {
      forall d: Contract | d.Text() == c.Text()
        ensures d == c
      {
        SameTextOfTwo(c, d);
      }
    } else if Contains(c.wireType, SEPARATOR) {
      var x, y := CutAround(c.wireType);
      SeparatorIsAmbiguous(c.media, x, y, c.hash);
    } else {
      var y, z := CutAround(c.hash);
      SeparatorIsAmbiguous(c.media, c.wireType, y, z);
    }
  }

  lemma CutAround(s: string) returns (before: string, after: string)
    requires Contains(s, SEPARATOR)
    ensures s == before + SEPARATOR + after
  {
    var i: nat :| i <= |s| && OccursAt(s, SEPARATOR, i);
    before, after := s[..i], s[i + |SEPARATOR|..];
  }

  /** A wire type that holds the separator reads as another contract's type and hash. */
  lemma SeparatorIsAmbiguous(media: Media, x: string, y: string, z: string)
    ensures
      var c := Contract(media, x, y + SEPARATOR + z);
      var d := Contract(media, x + SEPARATOR + y, z);
      c != d && c.Text() == d.Text() && Matches(c.Text(), d.Text())
  {
    var c := Contract(media, x, y + SEPARATOR + z);
    var d := Contract(media, x + SEPARATOR + y, z);
    assert x + SEPARATOR + (y + SEPARATOR + z) == (x + SEPARATOR + y) + SEPARATOR + z;
    SameText(c, d);
    hide Contract.Text;
    assert |d.wireType| > |c.wireType|;
  }

  lemma TextStartsWithMedia(c: Contract)
    ensures MEDIA_PREFIX <= c.Text() && c.Text()[0] == 'a'
  {
    assert c.media.Text() <= c.Text();
  }

  /** A received text accepted for two contracts means that the contracts' own texts agree. */
  lemma AcceptedForBoth(received: string, c: Contract, d: Contract)
    requires Matches(received, c.Text()) && Matches(received, d.Text())
    ensures c.Text() == d.Text()
  {
    ExactlyThreeSpellings(received, c.Text());
    ExactlyThreeSpellings(received, d.Text());
    TextStartsWithMedia(c);
    TextStartsWithMedia(d);
    hide Matches, Contract.Text;
    if received[0] == ';' {
      assert received == ";" + c.Text() && received == ";" + d.Text();
      assert c.Text() == received[1..] && d.Text() == received[1..];
    } else if received[0] == 'z' {
      assert received == LEGACY_PREFIX + c.Text() && received == LEGACY_PREFIX + d.Text();
      assert c.Text() == received[|LEGACY_PREFIX|..] && d.Text() == received[|LEGACY_PREFIX|..];
    } else {
      assert received == c.Text() && received == d.Text();
    }
  }

  /** Different contracts have disjoint accepted sets while their wire types do not hold the separator. */
  lemma AcceptanceIsUnambiguous(received: string, c: Contract, d: Contract)
    requires !Contains(c.wireType, SEPARATOR) && !Contains(d.wireType, SEPARATOR)
    requires Matches(received, c.Text()) && Matches(received, d.Text())
    ensures c == d
  {
    AcceptedForBoth(received, c, d);
    TextIsInjective(c, d);
  }

  /**
   * What is accepted for a contract is accepted for no other one if and only if neither its wire type nor its
   * hash holds the separator.
   */
  lemma AcceptedForNoOther(c: Contract)
    ensures (forall received, d: Contract :: Matches(received, c.Text()) && Matches(received, d.Text()) ==> d == c)
            <==> !Contains(c.wireType, SEPARATOR) && !Contains(c.hash, SEPARATOR)
  {
    UnambiguousWithoutSeparator(c);
    hide Contains, Contract.Text;
    forall received, d: Contract | Unambiguous(c) && Matches(received, c.Text()) && Matches(received, d.Text())
      ensures d == c
    {
      AcceptedForBoth(received, c, d);
    }
    if d: Contract :| d.Text() == c.Text() && d != c {
      ExactlyThreeSpellings(c.Text(), c.Text());
      assert Matches(c.Text(), d.Text());
    }
  }

  /** What is left of a text from the first place the needle occurs. */
  function CutBefore(received: string, needle: string): string {
    var at := Find(received, needle);
    if at.Some? then received[at.value..] else received
  }

  /** from_value_encoding: everything before the first media type is transport wrapping. */
  function RustCanonical(received: string): string {
    CutBefore(received, MEDIA_PREFIX)
  }

  /** The Rust side resolves a text to a contract when the canonical form is that contract's text. */
  predicate RustAccepts(received: string, c: Contract) {
    RustCanonical(received) == c.Text()
  }

  /** The needle does not begin inside the wrapping. */
  predicate Wraps(wrapping: string, text: string, needle: string) {
    forall i: nat :: i < |wrapping| ==> !OccursAt(wrapping + text, needle, i)
  }

  lemma CutUnwraps(wrapping: string, text: string, needle: string)
    requires needle <= text && Wraps(wrapping, text, needle)
    ensures CutBefore(wrapping + text, needle) == text
  {
    var received := wrapping + text;
    assert received[|wrapping|..|wrapping| + |needle|] == text[..|needle|];
    assert OccursAt(received, needle, |wrapping|);
    assert received[|wrapping|..] == text;
  }

  lemma CutHadWrapping(received: string, text: string, needle: string) returns (wrapping: string)
    requires needle <= text && CutBefore(received, needle) == text
    ensures received == wrapping + text && Wraps(wrapping, text, needle)
  {
    assert received == text ==> OccursAt(received, needle, 0);
    var at := Find(received, needle);
    assert at.Some?;
    wrapping := received[..at.value];
    assert received == wrapping + text;
  }

  /** Rust accepts exactly the contract's text behind any wrapping in which no media type begins. */
  lemma RustAcceptsAnyWrapping(received: string, c: Contract)
    ensures RustAccepts(received, c) <==>
            exists wrapping: string :: received == wrapping + c.Text() && Wraps(wrapping, c.Text(), MEDIA_PREFIX)
  {
    TextStartsWithMedia(c);
    if RustAccepts(received, c) {
      var wrapping := CutHadWrapping(received, c.Text(), MEDIA_PREFIX);
    }
    if wrapping: string :| received == wrapping + c.Text() && Wraps(wrapping, c.Text(), MEDIA_PREFIX) {
      CutUnwraps(wrapping, c.Text(), MEDIA_PREFIX);
    }
  }

  lemma FirstCharacter(s: string, needle: string, i: nat)
    requires needle != [] && i < |s|
    ensures OccursAt(s, needle, i) ==> s[i] == needle[0]
  {
    assert OccursAt(s, needle, i) ==> s[i..i + |needle|][0] == needle[0];
  }

  /** Every spelling C accepts for a contract, Rust resolves to the same contract. */
  lemma SidesAgree(received: string, c: Contract)
    requires Matches(received, c.Text())
    ensures RustAccepts(received, c)
  {
    ExactlyThreeSpellings(received, c.Text());
    var wrapping := if received == c.Text() then "" else if received == ";" + c.Text() then ";" else LEGACY_PREFIX;
    assert received == wrapping + c.Text();
    forall i: nat | i < |wrapping|
      ensures !OccursAt(wrapping + c.Text(), MEDIA_PREFIX, i)
    {
      assert (wrapping + c.Text())[i] == wrapping[i] != MEDIA_PREFIX[0];
      FirstCharacter(wrapping + c.Text(), MEDIA_PREFIX, i);
    }
    assert Wraps(wrapping, c.Text(), MEDIA_PREFIX);
    RustAcceptsAnyWrapping(received, c);
  }
}
