/** The key test of the walker: a C `strncmp` against the literal `"access_token"`,
    bounded by the length of the key, and the exact comparison it evidently stands for. */
module KeyMatch {

  const Nul: char := '\0'

  /** The key the walker looks for. */
  const AccessToken: string := "access_token"

  /** `StrncmpPrefix` is the comparison as the program writes it; `ExactKey` is
      byte-for-byte equality with `AccessToken`. */
  datatype KeyRule = StrncmpPrefix | ExactKey

  /** Two strings with a first byte are equal exactly when their first bytes
      and their remainders are. */
  lemma ConsEqual(a: char, x: string, b: char, y: string)
    ensures [a] + x == [b] + y <==> a == b && x == y
  {
    if [a] + x == [b] + y {
      assert ([a] + x)[0] == a && ([b] + y)[0] == b;
      assert ([a] + x)[1..] == x && ([b] + y)[1..] == y;
    }
  }

  /** Both outcomes of a comparison of `n > 0` bytes against a non-empty
      literal come down to an equal first byte and the same outcome for the
      other `n - 1` bytes. */
  lemma StrncmpStep(lit: string, s: string, n: nat)
    requires 0 < n <= |s| && lit != []
    ensures (n <= |lit| && s[..n] == lit[..n]) <==>
            s[0] == lit[0] && n - 1 <= |lit| - 1 && s[1..][..n - 1] == lit[1..][..n - 1]
    ensures (|lit| < n && s[..|lit|] == lit && s[|lit|] == Nul) <==>
            s[0] == lit[0] && |lit| - 1 < n - 1 && s[1..][..|lit| - 1] == lit[1..] && s[1..][|lit| - 1] == Nul
  {
    if n <= |lit| {
      assert s[..n] == [s[0]] + s[1..][..n - 1];
      assert lit[..n] == [lit[0]] + lit[1..][..n - 1];
      ConsEqual(s[0], s[1..][..n - 1], lit[0], lit[1..][..n - 1]);
    } else {
      assert s[..|lit|] == [s[0]] + s[1..][..|lit| - 1];
      assert lit == [lit[0]] + lit[1..];
      ConsEqual(s[0], s[1..][..|lit| - 1], lit[0], lit[1..]);
    }
  }

  /** Whether C's `strncmp(lit, s, n)` returns 0, where `lit` is a NUL-terminated
      literal and `s` a buffer holding at least `n` bytes: the comparison stops
      after `n` bytes, at the first difference, or when both sides reach NUL. */
  function StrncmpZero(lit: string, s: string, n: nat): (r: bool)
    requires Nul !in lit && n <= |s|
    ensures r <==> (n <= |lit| && s[..n] == lit[..n]) ||
                   (|lit| < n && s[..|lit|] == lit && s[|lit|] == Nul)
    decreases n
  {
    if n == 0 then true
    else if lit == [] then s[0] == Nul
    else
      StrncmpStep(lit, s, n);
      s[0] == lit[0] && StrncmpZero(lit[1..], s[1..], n - 1)
  }

  /** Whether the key bytes `key` select the value that follows them. */
  function KeyMatches(rule: KeyRule, key: string): (r: bool) {
    match rule
    case StrncmpPrefix => StrncmpZero(AccessToken, key, |key|)
    case ExactKey => key == AccessToken
  }

  /** As written, a key matches exactly when it is a prefix of `access_token`
      (the empty key included), or when it spells `access_token` and then has a
      NUL byte at index 12. */
  lemma StrncmpRule(key: string)
    ensures KeyMatches(StrncmpPrefix, key) <==>
            (|key| <= 12 && key == AccessToken[..|key|]) ||
            (12 < |key| && key[..12] == AccessToken && key[12] == Nul)
  {
  }

  /** The target key itself matches under both rules. */
  lemma TargetKeyMatches(rule: KeyRule)
    ensures KeyMatches(rule, AccessToken)
  {
  }

  /** A key whose first byte is not the target's first byte matches under neither rule. */
  lemma FirstByteMismatch(rule: KeyRule, key: string)
    requires key != [] && key[0] != AccessToken[0]
    ensures !KeyMatches(rule, key)
  {
  }

  /** Matching is case-sensitive: `Access_Token` is not the target key. */
  lemma CaseDifferingKeyRejected(rule: KeyRule)
    ensures !KeyMatches(rule, "Access_Token")
  {
    FirstByteMismatch(rule, "Access_Token");
  }

  /** The bounded comparison lets through every proper prefix of the target,
      which the exact comparison refuses. */
  lemma ProperPrefixMatches(key: string)
    requires |key| < |AccessToken| && key == AccessToken[..|key|]
    ensures KeyMatches(StrncmpPrefix, key) && !KeyMatches(ExactKey, key)
  {
    StrncmpRule(key);
  }

  /** In particular the empty key, `a` and `access` match as written. */
  lemma PrefixKeysMatch()
    ensures KeyMatches(StrncmpPrefix, "") && !KeyMatches(ExactKey, "")
    ensures KeyMatches(StrncmpPrefix, "a") && !KeyMatches(ExactKey, "a")
    ensures KeyMatches(StrncmpPrefix, "access") && !KeyMatches(ExactKey, "access")
  {
    ProperPrefixMatches("");
    ProperPrefixMatches(AccessToken[..1]);
    assert "a" == AccessToken[..1];
    ProperPrefixMatches(AccessToken[..6]);
    assert "access" == AccessToken[..6];
  }

  /** A longer key is refused unless its thirteenth byte is NUL. */
  lemma LongerKeys()
    ensures !KeyMatches(StrncmpPrefix, "access_tokens")
    ensures KeyMatches(StrncmpPrefix, AccessToken + [Nul, 'x'])
  {
    assert "access_tokens"[12] != Nul;
    assert (AccessToken + [Nul, 'x'])[..12] == AccessToken;
  }

  /** Exact matching is the bounded comparison restricted to keys of the target's length. */
  lemma ExactIsStrncmpAtFullLength(key: string)
    ensures KeyMatches(ExactKey, key) <==> |key| == |AccessToken| && KeyMatches(StrncmpPrefix, key)
  {
  }
}
