/**
 Hash slots (cluster.h, cluster.c). A key with a non-empty tag in braces is hashed by the tag
 alone, and a pattern that names such a tag before its first special character can only match
 keys of one slot. The 16-bit checksum is a parameter: nothing here depends on what it computes.
 */
module ClusterSlots {
  import opened Common

  const SLOTS := 0x4000

  /** The first position of `c` at or after `from`, or the length. */
  function IndexOf(s: string, c: char, from: nat): (i: nat)
    requires from <= |s|
    ensures from <= i <= |s|
    ensures forall k :: from <= k < i ==> s[k] != c
    ensures i < |s| ==> s[i] == c
    decreases |s| - from
  {
    if from == |s| || s[from] == c then from else IndexOf(s, c, from + 1)
  }

  /** The opening brace that counts, and the brace that closes it. */
  function Open(key: string): nat { IndexOf(key, '{', 0) }

  function Close(key: string): nat
    requires Open(key) < |key|
  {
    IndexOf(key, '}', Open(key) + 1)
  }

  /** A tag is what stands between the first opening brace and the first closing brace after it. */
  predicate HasTag(key: string) {
    Open(key) < |key| && Open(key) + 1 < Close(key) < |key|
  }

  /** The part of a key that is hashed. */
  function Hashed(key: string): string {
    if HasTag(key) then key[Open(key) + 1..Close(key)] else key
  }

  function Slot(crc16: string -> nat, part: string): (slot: nat)
    ensures slot < SLOTS
  {
    crc16(part) % SLOTS
  }

  function KeySlot(crc16: string -> nat, key: string): nat { Slot(crc16, Hashed(key)) }

  method KeyHashSlot(crc16: string -> nat, key: string) returns (slot: nat)
    ensures slot == KeySlot(crc16, key)
  {
    var s := 0;
    while s < |key| && key[s] != '{'
      invariant 0 <= s <= |key| && forall k :: 0 <= k < s ==> key[k] != '{'
    {
      s := s + 1;
    }
    IndexUnique(key, '{', 0, s);
    if s == |key| {
      return crc16(key) % SLOTS;
    }
    var e := s + 1;
    while e < |key| && key[e] != '}'
      invariant s < e <= |key| && forall k :: s < k < e ==> key[k] != '}'
    {
      e := e + 1;
    }
    IndexUnique(key, '}', s + 1, e);
    if e == |key| || e == s + 1 {
      return crc16(key) % SLOTS;
    }
    slot := crc16(key[s + 1..e]) % SLOTS;
  }

  lemma IndexUnique(s: string, c: char, from: nat, i: nat)
    requires from <= i <= |s|
    requires forall k :: from <= k < i ==> s[k] != c
    requires i < |s| ==> s[i] == c
    ensures IndexOf(s, c, from) == i
  {
  }

  /** The key is text without an opening brace, a tag in braces, and the rest. */
  predicate Tagged(key: string, before: string, tag: string, after: string) {
    && key == before + "{" + tag + "}" + after
    && '{' !in before && '}' !in tag && tag != ""
  }

  lemma TaggedIsTag(key: string, before: string, tag: string, after: string)
    requires Tagged(key, before, tag, after)
    ensures HasTag(key) && Hashed(key) == tag
  {
    var open, close := |before|, |before| + 1 + |tag|;
    assert key[open] == '{' && key[close] == '}';
    assert forall k :: 0 <= k < open ==> key[k] == before[k];
    assert forall k :: open < k < close ==> key[k] == tag[k - open - 1];
    IndexUnique(key, '{', 0, open);
    IndexUnique(key, '}', open + 1, close);
    assert key[open + 1..close] == tag;
  }

  lemma TagIsTagged(key: string)
    requires HasTag(key)
    ensures Tagged(key, key[..Open(key)], Hashed(key), key[Close(key) + 1..])
  {
    var open, close := Open(key), Close(key);
    assert key == key[..open] + [key[open]] + key[open + 1..close] + [key[close]] + key[close + 1..];
  }

  /**
   One of 16384 slots: of the tag, if the key has one, so that keys with the same tag share a slot;
   of the whole key otherwise.
   */
  lemma SlotOfTag(crc16: string -> nat, key: string)
    ensures forall before, tag, after :: Tagged(key, before, tag, after) ==> KeySlot(crc16, key) == crc16(tag) % 16384
    ensures (forall before, tag, after :: !Tagged(key, before, tag, after)) ==> KeySlot(crc16, key) == crc16(key) % 16384
  {
    forall before, tag, after | Tagged(key, before, tag, after)
      ensures KeySlot(crc16, key) == crc16(tag) % 16384
    {
      TaggedIsTag(key, before, tag, after);
    }
    if HasTag(key) {
      TagIsTagged(key);
    }
  }

  // ----- patterns -----

  predicate Special(c: char) { c in {'*', '?', '[', '\\'} }

  function FirstSpecial(p: string, from: nat): (i: nat)
    requires from <= |p|
    ensures from <= i <= |p|
    ensures forall k :: from <= k < i ==> !Special(p[k])
    ensures i < |p| ==> Special(p[i])
    decreases |p| - from
  {
    if from == |p| || Special(p[from]) then from else FirstSpecial(p, from + 1)
  }

  /** The slot of a pattern, if its text determines one. */
  function PatternSlot(crc16: string -> nat, p: string): Option<nat> {
    var special := FirstSpecial(p, 0);
    if HasTag(p) && Close(p) < special then Some(Slot(crc16, p[Open(p) + 1..Close(p)]))
    else if special < |p| then None
    else Some(Slot(crc16, p))
  }

  /** The scan of the source: `s` is -1 before the first brace and -2 after an empty tag. */
  method PatternHashSlot(crc16: string -> nat, pattern: string) returns (slot: int)
    ensures slot == match PatternSlot(crc16, pattern) case None => -1 case Some(n) => n
  {
    var s := -1;
    for i := 0 to |pattern|
      invariant forall k :: 0 <= k < i ==> !Special(pattern[k])
      invariant s >= -2
      invariant s == -1 ==> forall k :: 0 <= k < i ==> pattern[k] != '{'
      invariant s >= 0 ==> s == Open(pattern) < i && forall k :: s < k < i ==> pattern[k] != '}'
      invariant s == -2 ==> Open(pattern) + 1 < i && pattern[Open(pattern) + 1] == '}'
    {
      if Special(pattern[i]) {
        SpecialUnique(pattern, i);
        TagAfter(pattern, i, s);
        return -1;
      } else if s == -1 && pattern[i] == '{' {
        s := i;
        IndexUnique(pattern, '{', 0, i);
      } else if s >= 0 && pattern[i] == '}' && i == s + 1 {
        s := -2;
      } else if s >= 0 && pattern[i] == '}' {
        IndexUnique(pattern, '}', s + 1, i);
        return crc16(pattern[s + 1..i]) % SLOTS;
      }
    }
    SpecialUnique(pattern, |pattern|);
    TagAfter(pattern, |pattern|, s);
    slot := crc16(pattern) % SLOTS;
  }

  lemma SpecialUnique(p: string, i: nat)
    requires i <= |p|
    requires forall k :: 0 <= k < i ==> !Special(p[k])
    requires i < |p| ==> Special(p[i])
    ensures FirstSpecial(p, 0) == i
  {
  }

  /** No tag is closed before `i`. */
  lemma TagAfter(p: string, i: nat, s: int)
    requires i <= |p| && s >= -2
    requires s == -1 ==> forall k :: 0 <= k < i ==> p[k] != '{'
    requires s >= 0 ==> s == Open(p) < i && forall k :: s < k < i ==> p[k] != '}'
    requires s == -2 ==> Open(p) + 1 < i && p[Open(p) + 1] == '}'
    ensures !(HasTag(p) && Close(p) < i)
  {
    if s == -2 {
      IndexUnique(p, '}', Open(p) + 1, Open(p) + 1);
    }
  }

  // ----- matching -----

  function SkipStars(p: string): string {
    if p != [] && p[0] == '*' then SkipStars(p[1..]) else p
  }

  /**
   Glob matching as far as literal characters go: they match only themselves. What happens from
   the first special character on is left to `rest`, which stands for any treatment of wildcards,
   classes and escapes.
   */
  predicate Matches(p: string, s: string, rest: (string, string) -> bool)
    decreases |p|
  {
    if p == [] || s == [] then p == [] && s == []
    else if Special(p[0]) then rest(p, s)
    else p[0] == s[0] && if |s| == 1 then SkipStars(p[1..]) == [] else Matches(p[1..], s[1..], rest)
  }

  lemma {:induction false} StarsAreSpecial(p: string)
    requires SkipStars(p) == [] && p != []
    ensures Special(p[0])
  {
  }

  lemma FirstSpecialTail(p: string, from: nat)
    requires 1 <= from <= |p|
    ensures FirstSpecial(p, from) == FirstSpecial(p[1..], from - 1) + 1
    decreases |p| - from
  {
    if from < |p| && !Special(p[from]) {
      FirstSpecialTail(p, from + 1);
    }
  }

  /** A matching string begins with the literal beginning of the pattern. */
  lemma {:induction false} LiteralPrefix(p: string, s: string, rest: (string, string) -> bool)
    requires Matches(p, s, rest)
    ensures var n := FirstSpecial(p, 0); p[..n] <= s && (n == |p| ==> s == p)
    decreases |p|
  {
    if p != [] && s != [] && !Special(p[0]) {
      FirstSpecialTail(p, 1);
      var n := FirstSpecial(p, 0);
      if |s| == 1 {
        if |p| > 1 {
          StarsAreSpecial(p[1..]);
        }
        assert p[..n] == [p[0]];
        assert s == [s[0]];
      } else {
        LiteralPrefix(p[1..], s[1..], rest);
        assert p[..n] == [p[0]] + p[1..][..n - 1];
        assert s == [s[0]] + s[1..];
      }
    }
  }

  /** A tag that closes inside a common beginning is a tag of both. */
  lemma TagOfPrefix(p: string, s: string, n: nat)
    requires n <= |p| && p[..n] <= s && HasTag(p) && Close(p) < n
    ensures HasTag(s) && s[Open(s) + 1..Close(s)] == p[Open(p) + 1..Close(p)]
  {
    assert forall k :: 0 <= k < n ==> p[..n][k] == p[k] == s[k];
    IndexUnique(s, '{', 0, Open(p));
    IndexUnique(s, '}', Open(p) + 1, Close(p));
  }

  /** A pattern with a slot matches only keys of that slot. */
  lemma PatternSlotIsKeySlot(crc16: string -> nat, p: string, key: string, rest: (string, string) -> bool)
    requires PatternSlot(crc16, p).Some? && Matches(p, key, rest)
    ensures KeySlot(crc16, key) == PatternSlot(crc16, p).value
  {
    LiteralPrefix(p, key, rest);
    if HasTag(p) && Close(p) < FirstSpecial(p, 0) {
      TagOfPrefix(p, key, FirstSpecial(p, 0));
    }
  }

  /** Without special characters a pattern is a key, and the two functions agree on it. */
  lemma LiteralPatternIsKey(crc16: string -> nat, p: string)
    requires forall c :: c in p ==> !Special(c)
    ensures PatternSlot(crc16, p) == Some(KeySlot(crc16, p))
  {
    SpecialUnique(p, |p|);
  }

  ghost predicate NoSpecial(s: string) {
    forall i :: 0 <= i < |s| ==> !Special(s[i])
  }

  /**
   A pattern determines a slot exactly if it names a tag before any special character, and then it
   is the tag's slot, or if it has no special character at all, and then it is the whole text's.
   */
  lemma PatternSlotExactly(crc16: string -> nat, p: string)
    ensures forall before, tag, after :: Tagged(p, before, tag, after) && NoSpecial(before + tag) ==>
      PatternSlot(crc16, p) == Some(crc16(tag) % 16384)
    ensures (forall before, tag, after :: Tagged(p, before, tag, after) ==> !NoSpecial(before + tag)) ==>
      PatternSlot(crc16, p) == if NoSpecial(p) then Some(crc16(p) % 16384) else None
  {
    forall before, tag, after | Tagged(p, before, tag, after) && NoSpecial(before + tag)
      ensures PatternSlot(crc16, p) == Some(crc16(tag) % 16384)
    {
      TaggedIsTag(p, before, tag, after);
      SpecialBehind(p, before, tag, after);
    }
    if HasTag(p) {
      TagIsTagged(p);
      var before, tag := p[..Open(p)], Hashed(p);
      if Close(p) < FirstSpecial(p, 0) {
        forall i | 0 <= i < |before + tag|
          ensures !Special((before + tag)[i])
        {
          assert (before + tag)[i] == if i < |before| then p[i] else p[i + 1];
        }
      }
    }
  }

  lemma SpecialBehind(p: string, before: string, tag: string, after: string)
    requires Tagged(p, before, tag, after) && NoSpecial(before + tag)
    ensures HasTag(p) && Close(p) < FirstSpecial(p, 0)
  {
    TaggedIsTag(p, before, tag, after);
    var close := |before| + 1 + |tag|;
    forall i | 0 <= i <= close
      ensures !Special(p[i])
    {
      if i < |before| {
        assert p[i] == (before + tag)[i];
      } else if |before| < i < close {
        assert p[i] == (before + tag)[i - 1];
      }
    }
    TagIsTagged(p);
    assert Close(p) == close by {
      assert p[|before|] == '{' && p[close] == '}';
      assert forall k :: 0 <= k < |before| ==> p[k] == before[k];
      assert forall k :: |before| < k < close ==> p[k] == tag[k - |before| - 1];
      IndexUnique(p, '{', 0, |before|);
      IndexUnique(p, '}', |before| + 1, close);
    }
  }
}
