// Which kill-switch keys are accepted, and which of those can ever stop anything
// (apps/api/paxpivot/domain/source.py `KillSwitch.key_matches_scope`).
module SwitchKeys {
  import opened Wrappers
  import opened Digits
  import opened Domain
  import opened Gate

  // ---- `UUID(text)`, for any `int(text, 16)` that reads plain hexadecimal digits as their number ----

  predicate IsHex(c: char) { '0' <= c <= '9' || 'a' <= c <= 'f' || 'A' <= c <= 'F' }

  function HexDigit(c: char): (d: nat)
    requires IsHex(c)
    ensures d < 16
  {
    if '0' <= c <= '9' then c as nat - '0' as nat
    else if 'a' <= c <= 'f' then c as nat - 'a' as nat + 10
    else c as nat - 'A' as nat + 10
  }

  predicate AllHex(s: string) { forall i :: 0 <= i < |s| ==> IsHex(s[i]) }

  function HexValue(s: string): (v: nat)
    requires AllHex(s)
    ensures v < Pow16(|s|)
  {
    if s == "" then 0 else 16 * HexValue(s[..|s| - 1]) + HexDigit(s[|s| - 1])
  }

  // `text.replace(word, "")`
  function WithoutWord(s: string, word: string): string
    requires word != ""
  {
    if |s| < |word| then s
    else if s[..|word|] == word then WithoutWord(s[|word|..], word)
    else [s[0]] + WithoutWord(s[1..], word)
  }

  // `text.strip("{}")`
  function StripBraces(s: string): string
    decreases |s|
  {
    if s != "" && s[0] in {'{', '}'} then StripBraces(s[1..])
    else if s != "" && s[|s| - 1] in {'{', '}'} then StripBraces(s[..|s| - 1])
    else s
  }

  function Bare(key: string): string {
    WithoutWord(StripBraces(WithoutWord(WithoutWord(key, "urn:"), "uuid:")), "-")
  }

  // What the language's `int(text, 16)` does with other texts, such as "0x1f" or "1_f", is left open.
  type ReadHex = string -> Option<nat>

  ghost predicate ReadsPlainHex(read: ReadHex) {
    forall s: string :: AllHex(s) && s != "" ==> read(s) == Some(HexValue(s))
  }

  function ReadUuid(key: string, read: ReadHex): Option<Uuid> {
    var hex := Bare(key);
    if |hex| != 32 then None
    else if read(hex).Some? && read(hex).value < 0x1_0000_0000_0000_0000_0000_0000_0000_0000 then Some(read(hex).value)
    else None
  }

  ghost predicate KeyMatchesScope(switch: KillSwitch, read: ReadHex) {
    match switch.scope
    case ModeScope => exists mode :: switch.key == ModeValue(mode)
    case SourceScope => ReadUuid(switch.key, read).Some?
    case AdapterScope => true
  }

  // Some registered source, in some mode, would be stopped.
  ghost predicate CanStop(switch: KillSwitch) { exists source, mode :: Covers(switch, source, mode) }

  // ---- the canonical text reads back ----

  lemma {:induction false} WordAbsent(s: string, word: string)
    requires word != "" && word[0] !in s
    ensures WithoutWord(s, word) == s
  {
    if |s| >= |word| {
      assert s[..|word|][0] == s[0];
      WordAbsent(s[1..], word);
      assert s == [s[0]] + s[1..];
    }
  }

  lemma {:induction false} HyphenBetween(a: string, b: string)
    requires '-' !in a
    ensures WithoutWord(a + "-" + b, "-") == a + WithoutWord(b, "-")
  {
    if a == "" {
      assert ("" + "-" + b)[1..] == b && ("" + "-" + b)[..1] == "-";
    } else {
      assert (a + "-" + b)[1..] == a[1..] + "-" + b && (a + "-" + b)[..1] == [a[0]];
      HyphenBetween(a[1..], b);
      assert a == [a[0]] + a[1..];
    }
  }

  lemma {:induction false} HexTextReads(n: nat, w: nat)
    requires n < Pow16(w)
    ensures AllHex(HexText(n, w)) && HexValue(HexText(n, w)) == n
  {
    if w > 0 {
      HexTextReads(n / 16, w - 1);
      var s := HexText(n, w);
      assert s[..w - 1] == HexText(n / 16, w - 1) && s[w - 1] == HexChar(n % 16);
    }
  }

  // Hexadecimal digits and hyphens only: nothing but the hyphens is removed.
  lemma OnlyHyphensGo(key: string)
    requires forall i :: 0 <= i < |key| ==> IsHex(key[i]) || key[i] == '-'
    ensures Bare(key) == WithoutWord(key, "-")
  {
    var first, second := "urn:", "uuid:";
    assert !IsHex(first[0]) && !IsHex(second[0]);
    NothingElseGoes(key, first, second);
  }

  lemma NothingElseGoes(key: string, first: string, second: string)
    requires first != "" && second != "" && !IsHex(first[0]) && !IsHex(second[0]) && first[0] != '-' && second[0] != '-'
    requires forall i :: 0 <= i < |key| ==> IsHex(key[i]) || key[i] == '-'
    ensures StripBraces(WithoutWord(WithoutWord(key, first), second)) == key
  {
    WordAbsent(key, first);
    WordAbsent(key, second);
  }

  lemma HyphensOut(a: string, b: string, c: string, d: string, e: string)
    requires AllHex(a) && AllHex(b) && AllHex(c) && AllHex(d) && AllHex(e)
    ensures WithoutWord(a + "-" + (b + "-" + (c + "-" + (d + "-" + e))), "-") == a + (b + (c + (d + e)))
  {
    HyphenBetween(d, e);
    HyphenBetween(c, d + "-" + e);
    HyphenBetween(b, c + "-" + (d + "-" + e));
    HyphenBetween(a, b + "-" + (c + "-" + (d + "-" + e)));
    WordAbsent(e, "-");
  }

  lemma BareCanonical(u: Uuid)
    requires AllHex(HexText(u, 32))
    ensures Bare(UuidText(u)) == HexText(u, 32)
  {
    var hex := HexText(u, 32);
    var a, b, c, d, e := hex[..8], hex[8..12], hex[12..16], hex[16..20], hex[20..];
    assert UuidText(u) == a + "-" + (b + "-" + (c + "-" + (d + "-" + e)));
    HyphensOut(a, b, c, d, e);
    FivePieces(hex);
    OnlyHyphensGo(UuidText(u));
  }

  lemma FivePieces(hex: string)
    requires |hex| == 32
    ensures hex[..8] + (hex[8..12] + (hex[12..16] + (hex[16..20] + hex[20..]))) == hex
  {
  }

  lemma CanonicalTextReads(u: Uuid, read: ReadHex)
    requires ReadsPlainHex(read)
    ensures ReadUuid(UuidText(u), read) == Some(u)
  {
    Pow16Of32();
    HexTextReads(u, 32);
    BareCanonical(u);
  }

  // ---- what reading a key accepts besides ----

  const SMALL: string := "0123456789abcdef"
  const LARGE: string := "0123456789ABCDEF"

  // The hexadecimal digits are these sixteen, in either case, each with its place as its number.
  lemma HexDigitsExactly(c: char)
    ensures IsHex(c) <==> c in SMALL || c in LARGE
    ensures forall d :: 0 <= d < 16 ==>
              && IsHex(SMALL[d]) && HexDigit(SMALL[d]) == d && IsHex(LARGE[d]) && HexDigit(LARGE[d]) == d
  {
    if '0' <= c <= '9' {
      assert SMALL[c as int - '0' as int] == c;
    } else if 'a' <= c <= 'f' {
      assert SMALL[c as int - 'a' as int + 10] == c;
    } else if 'A' <= c <= 'F' {
      assert LARGE[c as int - 'A' as int + 10] == c;
    }
  }

  ghost predicate IsBrace(c: char) { c == '{' || c == '}' }

  // Exactly the braces at the two ends come off.
  lemma {:induction false} BracesComeOff(s: string) returns (i: nat, j: nat)
    ensures i <= j <= |s| && StripBraces(s) == s[i..j]
    ensures forall k :: 0 <= k < i || j <= k < |s| ==> IsBrace(s[k])
    ensures i < j ==> !IsBrace(s[i]) && !IsBrace(s[j - 1])
    decreases |s|
  {
    i, j := 0, |s|;
    if s != "" && IsBrace(s[0]) {
      i, j := BracesComeOff(s[1..]);
      i, j := i + 1, j + 1;
      assert forall k :: 1 <= k < |s| ==> s[k] == s[1..][k - 1];
      assert s[i..j] == s[1..][i - 1..j - 1];
    } else if s != "" && IsBrace(s[|s| - 1]) {
      i, j := BracesComeOff(s[..|s| - 1]);
    }
  }

  lemma WordLeads(word: string, s: string)
    requires word != "" && word[0] !in s
    ensures WithoutWord(word + s, word) == s
  {
    assert (word + s)[..|word|] == word && (word + s)[|word|..] == s;
    WordAbsent(s, word);
  }

  // Hexadecimal digits and hyphens pass through the first three steps, also behind "urn:uuid:" or in braces.
  ghost predicate PlainKey(key: string) { forall i :: 0 <= i < |key| ==> IsHex(key[i]) || key[i] == '-' }

  lemma UrnIsRead(key: string)
    requires PlainKey(key)
    ensures Bare("urn:uuid:" + key) == Bare(key)
  {
    var first, second := "urn:", "uuid:";
    assert "urn:uuid:" + key == first + (second + key);
    assert !IsHex(first[0]) && !IsHex(second[0]);
    NothingElseGoes(key, first, second);
    WordAbsent(key, first);
    UuidHasNoUrn(key);
    WordLeads(second, key);
  }

  lemma UuidHasNoUrn(key: string)
    requires PlainKey(key)
    ensures WithoutWord("urn:" + ("uuid:" + key), "urn:") == "uuid:" + key
  {
    var first, rest := "urn:", "uuid:" + key;
    assert (first + rest)[..4] == first && (first + rest)[4..] == rest;
    assert rest[..4] == "uuid" && rest[1..] == "uid:" + key;
    TailHasNoUrn(key);
    assert WithoutWord(rest, first) == [rest[0]] + WithoutWord(rest[1..], first);
    assert [rest[0]] + rest[1..] == rest;
  }

  lemma TailHasNoUrn(key: string)
    requires PlainKey(key)
    ensures WithoutWord("uid:" + key, "urn:") == "uid:" + key
  {
    var first, rest := "urn:", "uid:" + key;
    assert rest[..4] == "uid:" && rest[1..] == "id:" + key;
    assert first[0] !in "id:" + key;
    WordAbsent("id:" + key, first);
    assert [rest[0]] + rest[1..] == rest;
  }

  lemma BracedIsRead(key: string)
    requires PlainKey(key) && key != ""
    ensures Bare("{" + key + "}") == Bare(key)
  {
    var first, second := "urn:", "uuid:";
    var braced := "{" + key + "}";
    assert !IsHex(first[0]) && !IsHex(second[0]);
    NothingElseGoes(key, first, second);
    WordAbsent(braced, first);
    WordAbsent(braced, second);
    OuterBraces(key);
    WordAbsent(key, first);
    WordAbsent(key, second);
  }

  lemma OuterBraces(key: string)
    requires key != "" && !IsBrace(key[0]) && !IsBrace(key[|key| - 1])
    ensures StripBraces("{" + key + "}") == key && StripBraces(key) == key
  {
    var open, closed := "{" + key + "}", key + "}";
    assert open[0] == '{' && open[1..] == closed;
    assert closed[0] == key[0] && closed[|closed| - 1] == '}' && closed[..|closed| - 1] == key;
    assert StripBraces(closed) == StripBraces(key);
  }

  // The canonical text is also accepted behind "urn:uuid:" and in braces, as the same identifier.
  lemma OtherSpellingsRead(u: Uuid, read: ReadHex)
    requires ReadsPlainHex(read)
    ensures ReadUuid("urn:uuid:" + UuidText(u), read) == Some(u)
    ensures ReadUuid("{" + UuidText(u) + "}", read) == Some(u)
  {
    CanonicalTextReads(u, read);
    CanonicalIsPlain(u);
    UrnIsRead(UuidText(u));
    BracedIsRead(UuidText(u));
  }

  lemma CanonicalIsPlain(u: Uuid)
    ensures PlainKey(UuidText(u)) && UuidText(u) != ""
  {
    Pow16Of32();
    HexTextReads(u, 32);
  }

  // ---- what an accepted key can do ----

  function SourceWith(id: Uuid, adapter: Identifier): Source {
    Source(SourceIdentity(id, "u", "a"), "n", TerminalPage, None, true, None, Some(adapter), None,
           Policy("p", NeedsReview, false, false, false, false, false, Denied, None, None, None), 0, 0)
  }

  // A key is accepted so that a switch is never silently inert. For modes and adapters it never is.
  // This holds however liberal the reading of numbers is.
  // A source switch stops something exactly when its key is the canonical text of the identifier it
  // reads as; every other accepted spelling is inert.
  lemma AcceptedKeysStopExactly(switch: KillSwitch, read: ReadHex)
    requires ReadsPlainHex(read) && switch.Engaged() && KeyMatchesScope(switch, read)
    ensures !switch.scope.SourceScope? ==> CanStop(switch)
    ensures switch.scope.SourceScope? ==>
              var named := ReadUuid(switch.key, read).value;
              && (CanStop(switch) <==> switch.key == UuidText(named))
              && forall source, mode :: Covers(switch, source, mode) ==> source.Id() == named
  {
    match switch.scope
    case ModeScope =>
      var mode :| switch.key == ModeValue(mode);
      assert Covers(switch, SourceWith(0, ""), mode);
    case AdapterScope =>
      assert Covers(switch, SourceWith(0, switch.key), Retrieve);
    case SourceScope =>
      var named := ReadUuid(switch.key, read).value;
      if switch.key == UuidText(named) {
        assert Covers(switch, SourceWith(named, ""), Retrieve);
      }
      forall source, mode | Covers(switch, source, mode)
        ensures source.Id() == named && switch.key == UuidText(named)
      {
        CanonicalTextReads(source.Id(), read);
      }
  }

  // Thirty-two zeros without hyphens name the identifier 0, are accepted, and stop nothing.
  lemma AnAcceptedKeyCanBeInert(read: ReadHex)
    requires ReadsPlainHex(read)
    ensures var switch := KillSwitch(1, SourceScope, HexText(0, 32), "r", 0, None);
            switch.Engaged() && KeyMatchesScope(switch, read) && !CanStop(switch)
  {
    var key := HexText(0, 32);
    Pow16Of32();
    HexTextReads(0, 32);
    OnlyHyphensGo(key);
    WordAbsent(key, "-");
    var switch := KillSwitch(1, SourceScope, key, "r", 0, None);
    AcceptedKeysStopExactly(switch, read);
  }

  // So is the canonical text of every identifier behind "urn:uuid:" and in braces.
  lemma OtherSpellingsAreInert(u: Uuid, key: string, read: ReadHex)
    requires ReadsPlainHex(read) && key in {"urn:uuid:" + UuidText(u), "{" + UuidText(u) + "}"}
    ensures var switch := KillSwitch(1, SourceScope, key, "r", 0, None);
            switch.Engaged() && KeyMatchesScope(switch, read) && !CanStop(switch)
  {
    OtherSpellingsRead(u, read);
    assert |key| > |UuidText(u)|;
    AcceptedKeysStopExactly(KillSwitch(1, SourceScope, key, "r", 0, None), read);
  }
}
