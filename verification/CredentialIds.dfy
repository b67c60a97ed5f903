/**
 * Credential ids, `provider#label`, and the breaker keys built on them: the keys of configured
 * credentials never collide; raw ids read back from a state file can, and it is said exactly when.
 */
module CredentialIds {
  import opened Common
  import opened BreakerCells
  import opened BreakerStates
  import opened BreakerRows

  predicate LabelChar(c: char) {
    'A' <= c <= 'Z' || 'a' <= c <= 'z' || '0' <= c <= '9' || c == '_' || c == '.' || c == '-'
  }

  predicate IsLabel(slot: string) {
    1 <= |slot| <= 32 && forall i :: 0 <= i < |slot| ==> LabelChar(slot[i])
  }

  /** `makeCredentialId`; nothing where it throws. */
  function MakeCredentialId(provider: string, slot: string): Option<string> {
    if |provider| == 0 || '#' in provider || !IsLabel(slot) then None else Some(provider + "#" + slot)
  }

  /** The first place of a character, or -1. */
  function IndexOf(s: string, c: char): (n: int)
    ensures -1 <= n < |s| && (n == -1 ==> c !in s) && (n >= 0 ==> s[n] == c && c !in s[..n])
  {
    if |s| == 0 then -1
    else if s[0] == c then 0
    else
      var n := IndexOf(s[1..], c);
      if n < 0 then -1 else n + 1
  }

  /** The last place of a character, or -1. */
  function LastIndexOf(s: string, c: char): (n: int)
    ensures -1 <= n < |s| && (n == -1 ==> c !in s) && (n >= 0 ==> s[n] == c && c !in s[n + 1..])
  {
    if |s| == 0 then -1
    else if s[|s| - 1] == c then |s| - 1
    else LastIndexOf(s[..|s| - 1], c)
  }

  /** `parseCredentialId`: the only `#` splits the id. */
  function ParseCredentialId(value: string): Option<(string, string)> {
    var separator := IndexOf(value, '#');
    if separator <= 0 || separator != LastIndexOf(value, '#') || !IsLabel(value[separator + 1..]) then None
    else Some((value[..separator], value[separator + 1..]))
  }

  /** Parsing is the inverse of making, on every input and both ways. */
  lemma ParsesExactlyWhatIsMade(value: string, provider: string, slot: string)
    ensures ParseCredentialId(value) == Some((provider, slot)) <==> MakeCredentialId(provider, slot) == Some(value)
  {
    hide ParseCredentialId, MakeCredentialId;
    if MakeCredentialId(provider, slot) == Some(value) {
      MadeIsParsed(value, provider, slot);
    }
    if ParseCredentialId(value) == Some((provider, slot)) {
      ParsedIsMade(value, provider, slot);
    }
  }

  lemma MadeIsParsed(value: string, provider: string, slot: string)
    requires MakeCredentialId(provider, slot) == Some(value)
    ensures ParseCredentialId(value) == Some((provider, slot))
  {
    var n := |provider|;
    assert value[n] == '#' && value[..n] == provider && value[n + 1..] == slot;
    IndexIs(value, '#', n);
    LastIndexIs(value, '#', n);
  }

  lemma ParsedIsMade(value: string, provider: string, slot: string)
    requires ParseCredentialId(value) == Some((provider, slot))
    ensures MakeCredentialId(provider, slot) == Some(value)
  {
    var separator := IndexOf(value, '#');
    assert value == value[..separator] + [value[separator]] + value[separator + 1..];
  }

  lemma {:induction false} IndexIs(s: string, c: char, n: nat)
    requires n < |s| && s[n] == c && c !in s[..n]
    ensures IndexOf(s, c) == n
  {
    if n > 0 {
      assert s[..n][0] == s[0];
      assert s[1..][..n - 1] == s[..n][1..];
      IndexIs(s[1..], c, n - 1);
    }
  }

  lemma {:induction false} LastIndexIs(s: string, c: char, n: nat)
    requires n < |s| && s[n] == c && c !in s[n + 1..]
    ensures LastIndexOf(s, c) == n
  {
    if n < |s| - 1 {
      var rest := s[n + 1..];
      assert rest[|rest| - 1] == s[|s| - 1];
      assert s[..|s| - 1][n + 1..] == rest[..|rest| - 1];
      LastIndexIs(s[..|s| - 1], c, n);
    }
  }

  // ---------------------------------------------------------------- keys of configured credentials

  function Before(s: string, c: char): string {
    if |s| == 0 || s[0] == c then "" else [s[0]] + Before(s[1..], c)
  }

  lemma {:induction false} BeforeIs(x: string, c: char, rest: string)
    requires c !in x
    ensures Before(x, c) == x && Before(x + [c] + rest, c) == x
  {
    if |x| > 0 {
      BeforeIs(x[1..], c, rest);
      assert (x + [c] + rest)[1..] == x[1..] + [c] + rest;
    }
  }

  /** What follows the id in a cell key. */
  function Suffix(t: Target): string {
    if t.model.None? then "" else "/" + t.model.value
  }

  lemma KeySplits(t: Target)
    ensures KeyOf(t) == t.credentialId + Suffix(t)
  {
  }

  lemma BeforeSuffix(x: string, t: Target)
    requires '/' !in x
    ensures Before(x + Suffix(t), '/') == x
  {
    hide Before;
    if t.model.None? {
      BeforeIs(x, '/', "");
      assert x + Suffix(t) == x;
    } else {
      BeforeIs(x, '/', t.model.value);
      assert x + Suffix(t) == x + ['/'] + t.model.value;
    }
  }

  lemma SuffixFixed(x: string, a: Target, b: Target)
    requires x + Suffix(a) == x + Suffix(b)
    ensures a.model == b.model
  {
    assert (x + Suffix(a))[|x|..] == Suffix(a) && (x + Suffix(b))[|x|..] == Suffix(b);
    if a.model.Some? && b.model.Some? {
      assert Suffix(a)[1..] == a.model.value && Suffix(b)[1..] == b.model.value;
    }
  }

  /** Text up to a suffix that is empty or begins with a slash is fixed by the whole. */
  lemma LabelFixed(x: string, y: string, a: Target, b: Target)
    requires '/' !in x && '/' !in y && x + Suffix(a) == y + Suffix(b)
    ensures x == y && a.model == b.model
  {
    hide Before, Suffix;
    BeforeSuffix(x, a);
    BeforeSuffix(y, b);
    SuffixFixed(x, a, b);
  }

  /** Provider, label and model, slashes and all, can be told from the key of a configured credential. */
  lemma ConfiguredKeysNeverCollide(a: Target, b: Target)
    requires ParseCredentialId(a.credentialId).Some? && ParseCredentialId(b.credentialId).Some?
    ensures KeyOf(a) == KeyOf(b) <==> a.credentialId == b.credentialId && a.model == b.model
  {
    hide ParseCredentialId, Suffix;
    if KeyOf(a) == KeyOf(b) {
      var (p, l) := ParseCredentialId(a.credentialId).value;
      var (q, m) := ParseCredentialId(b.credentialId).value;
      KeyInParts(a, p, l);
      KeyInParts(b, q, m);
      SameHalves(p, l + Suffix(a), q, m + Suffix(b));
      LabelFixed(l, m, a, b);
    }
  }

  lemma KeyInParts(t: Target, provider: string, slot: string)
    requires ParseCredentialId(t.credentialId) == Some((provider, slot))
    ensures KeyOf(t) == provider + "#" + (slot + Suffix(t))
    ensures t.credentialId == provider + "#" + slot && '#' !in provider && '/' !in slot
  {
    hide ParseCredentialId;
    ParsesExactlyWhatIsMade(t.credentialId, provider, slot);
    LabelHasNoSlash(slot);
    KeySplits(t);
  }

  lemma SameHalves(p: string, x: string, q: string, y: string)
    requires '#' !in p && '#' !in q && p + "#" + x == q + "#" + y
    ensures p == q && x == y
  {
    BeforeIs(p, '#', x);
    BeforeIs(q, '#', y);
    assert (p + "#" + x)[|p| + 1..] == x && (q + "#" + y)[|q| + 1..] == y;
  }

  lemma LabelHasNoSlash(slot: string)
    requires IsLabel(slot)
    ensures '/' !in slot
  {
  }

  // ---------------------------------------------------------------- keys of raw ids

  /** One id, a slash and a model spell out another id and its model. */
  predicate SpellsOut(a: Target, b: Target) {
    && |a.credentialId| < |b.credentialId| && b.credentialId[..|a.credentialId| + 1] == a.credentialId + "/"
    && a.model == Some(b.credentialId[|a.credentialId| + 1..] + Suffix(b))
  }

  /** Two deployments share a key for no other reason than one id spelling out the other. */
  lemma RawKeysCollideExactlyWhen(a: Target, b: Target)
    ensures KeyOf(a) == KeyOf(b) && (a.credentialId != b.credentialId || a.model != b.model)
            <==> SpellsOut(a, b) || SpellsOut(b, a)
  {
    hide KeyOf;
    KeySplits(a);
    KeySplits(b);
    if SpellsOut(a, b) {
      SpelledKey(a, b);
    } else if SpellsOut(b, a) {
      SpelledKey(b, a);
    } else if KeyOf(a) == KeyOf(b) {
      if |a.credentialId| < |b.credentialId| {
        SharedKeySpells(a, b);
      } else if |b.credentialId| < |a.credentialId| {
        SharedKeySpells(b, a);
      } else {
        SameIdSameModel(a, b);
      }
    }
  }

  lemma SpelledKey(a: Target, b: Target)
    requires SpellsOut(a, b)
    ensures a.credentialId + Suffix(a) == b.credentialId + Suffix(b)
  {
    var n := |a.credentialId|;
    assert b.credentialId == b.credentialId[..n + 1] + b.credentialId[n + 1..];
  }

  lemma SharedKeySpells(a: Target, b: Target)
    requires a.credentialId + Suffix(a) == b.credentialId + Suffix(b) && |a.credentialId| < |b.credentialId|
    ensures SpellsOut(a, b)
  {
    var n, key := |a.credentialId|, a.credentialId + Suffix(a);
    assert key[..n] == a.credentialId && key[n] == Suffix(a)[0] == '/';
    assert key[..n + 1] == b.credentialId[..n + 1];
    assert key[n + 1..] == a.model.value;
    assert (b.credentialId + Suffix(b))[n + 1..] == b.credentialId[n + 1..] + Suffix(b);
  }

  lemma SameIdSameModel(a: Target, b: Target)
    requires a.credentialId + Suffix(a) == b.credentialId + Suffix(b) && |a.credentialId| == |b.credentialId|
    ensures a.credentialId == b.credentialId && a.model == b.model
  {
    hide Suffix;
    var n := |a.credentialId|;
    assert (a.credentialId + Suffix(a))[..n] == a.credentialId && (b.credentialId + Suffix(b))[..n] == b.credentialId;
    SuffixFixed(a.credentialId, a, b);
  }

  /** The row check lets raw ids through; of two rows that spell each other out the later is dropped. */
  lemma RawRowsCollide(x: Cell, y: Cell)
    requires SpellsOut(x.target, y.target) || SpellsOut(y.target, x.target)
    ensures Restored(NO_CELLS, [x, y]) == Restored(NO_CELLS, [x])
    ensures x.target.credentialId != y.target.credentialId
  {
    hide KeyOf, SpellsOut;
    RawKeysCollideExactlyWhen(x.target, y.target);
    DistinctIds(x.target, y.target);
    assert [x, y][..1] == [x] && [x][..0] == [];
    assert Restored(NO_CELLS, []) == NO_CELLS;
  }

  lemma DistinctIds(a: Target, b: Target)
    requires SpellsOut(a, b) || SpellsOut(b, a)
    ensures a.credentialId != b.credentialId
  {
  }

  lemma SlashesCollide()
    ensures var x := FreshCell(Target("p", Some("b/c"), "openai", "a", None));
            var y := FreshCell(Target("q", Some("c"), "openai", "a/b", None));
            IsRow(x) && IsRow(y) && SpellsOut(x.target, y.target)
  {
    assert "a/b"[..2] == "a" + "/" && "a/b"[2..] + ("/" + "c") == "b/c";
  }
}
