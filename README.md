# tkget's token walker, modelled in Dafny

`tkget` reads a JSON document from standard input, tokenizes it with jsmn and
prints the raw value of every object member whose key is `access_token` (and,
as written, of every key that is a prefix of it; see Findings), at any depth. This project models the part of `tkget` that does the finding: the
recursive walker `findaccesstoken` in `tkget/main.c`.

jsmn hands the walker a flat array of tokens. Each token has a kind (undefined,
object, array, string, primitive), a byte span `[start, end)` into the buffer
and a `size`. The array holds the document tree in pre-order. Every token is
followed straight away by the `size` subtrees below it. For an object these are
its keys. A key has `size` 1 when a value follows it. For an array they are its
elements. The walker goes through this tree depth first. It returns how many
tokens the subtree it walked occupies, so that its caller can move its cursor to
the next sibling. For each matching key that has a value, it prints the span of
the token after the key.

## Layout

- `jsmn_tokens.dfy`, module `JsmnTokens`: the token record and the tree it
  encodes.
  - `Width` is a reference measure of subtree length. It scans left to right and
    keeps a count of pending subtrees: each token closes one and opens `size`
    new ones. This is independent of the walker's recursion.
  - `WellFormedValue`, `WellFormedMembers` and `WellFormedElements` describe
    the layout jsmn produces for a parsed document.
- `key_match.dfy`, module `KeyMatch`: the key test. `StrncmpZero` models C's
  `strncmp(...) == 0` exactly. `KeyRule` picks between the comparison as the
  program writes it (`StrncmpPrefix`) and exact equality (`ExactKey`).
- `tkget.dfy`, module `TkGet`: the walker.
  - `FindAccessToken` is `findaccesstoken`.
  - `WalkObject`, `WalkMember` and `WalkArray` are its object case, one
    iteration of the object loop, and its array case.
  - `Matches` is the reference for what gets printed. Over a range of tokens, it
    lists in index order the span after each key that has a value and passes
    the key test.
  - The lemmas relate `Matches` to reports at any depth, to completeness and to
    start order.
- `scenarios.dfy`, module `Scenarios`: concrete documents with the tokens jsmn
  gives for them, and what is reported for each.
  - Small shape lemmas (`SingleMember...`, `OneMember...`, `TwoElement...`)
    build a well-formed object or array from its parts and split its reports.
  - For each document, a `...Layout` predicate lists what the walker can see:
    the buffer length, the key bytes and every token's kind, span and `size`.
    The document lemma holds for every buffer and token array with that layout.
    A `...Text` lemma shows that the document's own text and token array have
    it.

Each `printf` of a value becomes an append to the `emitted` sequence that the
walker returns. The walker's callers concatenate these sequences in the order in
which the program prints.

The buffer and the token array are passed as values (`seq`). The methods have no
`modifies` clause. So the walker changes neither of them, and its only effect is
the reported spans. This matches `const char *js` and the read-only use of `t`.

## Deviations from the source, and how they are handled

- **Uninitialised cursor.** In the array case, `j` is never initialised
  (`tkget/main.c:36`, `tkget/main.c:73-77`). Only the object case sets it, at
  `tkget/main.c:49`. The model starts the array cursor at 0, as the object case
  does. The value the C code actually starts from is indeterminate, so the
  model cannot describe it.
- **Remaining-token count.** Recursive calls pass `count - j`, but the callee
  starts at `t + 1 + j`. So `count` overstates the tokens left by one per level
  of nesting. The model passes the same `count - j`. `Walkable` requires a
  non-zero `count` to be at least the container's subtree length. Under that
  condition the proofs show three things:
  - `j <= count` whenever the subtraction happens, so the unsigned `size_t`
    never wraps.
  - Every recursive call on a key or value gets a non-zero count.
  - The unchecked read of the value token at `tkget/main.c:62` is in range.
- **Key test.** The function's name and its comment "Find a specific key"
  (`tkget/main.c:31`) point to an exact, byte-for-byte comparison. The code
  calls `strncmp` bounded by the key's length, and the model follows the code.
  `StrncmpZero` also captures the NUL at the end of the literal. So a key
  longer than 12 bytes matches when its first 12 bytes spell `access_token`
  and its 13th byte is NUL. The buffer can hold NUL bytes: `strncpy` at
  `tkget/main.c:126` pads each chunk with NULs after its first NUL. Whether a
  key span can contain one depends on the tokenizer, which is not modelled, and
  `WellFormedValue` does not exclude it. The lemmas about this case describe
  the comparison.

## Model

| member | source | states |
|---|---|---|
| `JsmnTokens.Width` | tkget/main.c:48-77 | `n` pre-order subtrees from `pos` take at least `n` tokens |
| `JsmnTokens.WidthBounds` | tkget/main.c:48-77 | when those subtrees are complete, they end inside the token array |
| `JsmnTokens.SubtreeLen` | tkget/main.c:72-77 | a subtree takes at least one token (its root) and ends inside the array |
| `JsmnTokens.WidthConcat` | tkget/main.c:50-56 | the first `a + b` subtrees are the first `a` followed by the next `b`; this is why adding each callee's return value to the cursor reaches the next sibling |
| `JsmnTokens.MemberStep` | tkget/main.c:50-70 | a member is a key (a leaf whose span lies in the buffer, `size` at most 1) plus the value subtree when `size` is 1; the remaining members start right after |
| `JsmnTokens.ElementStep` | tkget/main.c:74-76 | an array element is a well-formed value; the remaining elements start right after its subtree |
| `KeyMatch.StrncmpStep` | tkget/main.c:59 | comparing `n > 0` bytes agrees with comparing the first byte and then the remaining `n - 1` bytes of both strings, for both ways the comparison can succeed |
| `KeyMatch.KeyMatches` | tkget/main.c:59 | the key test applied to the key's bytes: as written, `strncmp` against `access_token` bounded by the key's length; corrected, equality with `access_token` (its properties are stated by the `KeyMatch` lemmas below) |
| `KeyMatch.StrncmpZero` | tkget/main.c:59 | `strncmp(lit, s, n) == 0` holds exactly when the first `n` bytes agree with the literal, or when `s` spells the whole literal and then has a NUL |
| `KeyMatch.StrncmpRule` | tkget/main.c:59 | as written, a key matches iff it is a prefix of `access_token` (length at most 12) or spells it followed by NUL |
| `KeyMatch.TargetKeyMatches` | tkget/main.c:59 | the key `access_token` matches under both rules |
| `KeyMatch.FirstByteMismatch` | tkget/main.c:59 | a non-empty key whose first byte is not `a` matches under neither rule |
| `KeyMatch.CaseDifferingKeyRejected` | tkget/main.c:59 | `Access_Token` does not match under either rule |
| `KeyMatch.ProperPrefixMatches` | tkget/main.c:59 | every proper prefix of `access_token` matches as written but not exactly |
| `KeyMatch.PrefixKeysMatch` | tkget/main.c:59 | the empty key, `a` and `access` match as written but not exactly |
| `KeyMatch.LongerKeys` | tkget/main.c:59 | `access_tokens` does not match; `access_token` followed by NUL and more bytes does |
| `KeyMatch.ExactIsStrncmpAtFullLength` | tkget/main.c:59 | exact matching is the as-written test restricted to 12-byte keys |
| `TkGet.EmitsAt` | tkget/main.c:59-63 | token `k` is a leaf with `size > 0` whose span lies in the buffer and passes the key test, so the token at `k + 1` is printed (its properties are stated by `MatchesSound`, `MatchesComplete` and `ExactReportsOnlyTarget`) |
| `TkGet.MatchesConcat` | tkget/main.c:56-76 | the reports for adjacent token ranges are concatenated in order |
| `TkGet.MatchesStep` | tkget/main.c:59-64 | the definition of `Matches` unfolded at its last token: extending a range by one token adds that token's report when it is a matching key with a value |
| `TkGet.MatchesSound` | tkget/main.c:59-64 | every report is the span of the token right after a key in the range that has a value and passes the key test |
| `TkGet.MatchesComplete` | tkget/main.c:56-76 | every key in the range that has a value and passes the key test has its value reported, at any depth |
| `TkGet.ExactReportsOnlyTarget` | tkget/main.c:59-64 | under exact matching, every report follows a key whose bytes are exactly `access_token` |
| `TkGet.MatchesOrdered` | tkget/main.c:56-76 | when token starts increase with the index, as jsmn writes them, reports come out in strictly increasing start order |
| `TkGet.FindAccessToken` | tkget/main.c:33-82 | `count == 0` returns 0 and reports nothing; an undefined token returns 0 and reports nothing; a string or primitive returns 1 and reports nothing; a well-formed value returns its subtree length and reports `Matches` of its range; the result never exceeds `count` or the array |
| `TkGet.WalkObject` | tkget/main.c:48-72 | an object returns 1 plus the lengths of its members (key plus value when the key's `size` is non-zero), and reports the members' reports in order |
| `TkGet.WalkMember` | tkget/main.c:51-70 | a member advances the cursor past the key and, when the key's `size` is non-zero, past the value's subtree; it reports the value's span first when the key matches, then whatever the value's subtree reports |
| `TkGet.WalkArray` | tkget/main.c:73-77 | an array returns 1 plus the lengths of its elements and reports their reports in order |
| `TkGet.WalkDocument` | tkget/main.c:141 | a walk from the first token with `count` equal to the number of tokens stays inside the array; on a complete document it returns the number of tokens, with no overrun and nothing left over |
| `Scenarios.SingleMemberShape` | tkget/main.c:48-70 | an object whose one member is a leaf key with a well-formed value of `len` tokens is a well-formed value of `2 + len` tokens |
| `Scenarios.SingleMemberReports` | tkget/main.c:56-70 | such an object reports the value's span when the key matches, then the value subtree's reports |
| `Scenarios.OneMemberShape` | tkget/main.c:48-70 | an object with one member whose value is a leaf is a well-formed value of three tokens |
| `Scenarios.OneMemberReports` | tkget/main.c:56-64 | such an object reports its value's span exactly when the key matches |
| `Scenarios.TwoElementShape` | tkget/main.c:73-77 | an array of two well-formed elements of `a` and `b` tokens is a well-formed value of `1 + a + b` tokens |
| `Scenarios.TwoElementReports` | tkget/main.c:73-77 | an array reports the first element's reports, then the second's |
| `Scenarios.FlatShape` | tkget/main.c:48-70 | every buffer and token array with the layout of `{"access_token":"abc123"}` form a complete document |
| `Scenarios.FlatDocument` | tkget/main.c:56-64 | that layout reports the span of `abc123` |
| `Scenarios.NestedShape` | tkget/main.c:48-70 | the layout of `{"foo":{"access_token":"nested"}}` is a complete document |
| `Scenarios.NestedDocument` | tkget/main.c:56-70 | that layout reports only the span of `nested`; the outer key `foo` is not the target |
| `Scenarios.ArrayOfObjectsShape` | tkget/main.c:73-77 | the layout of `[{"access_token":"a"},{"access_token":"b"}]` is a complete document |
| `Scenarios.ArrayOfObjects` | tkget/main.c:73-77 | that layout reports `a` then `b` |
| `Scenarios.NullShape` | tkget/main.c:48-70 | the layout of `{"access_token":null}` is a complete document |
| `Scenarios.NullValue` | tkget/main.c:61-64 | that layout reports the raw span `null` |
| `Scenarios.OtherShape` | tkget/main.c:48-70 | the layout of `{"x":1}` is a complete document |
| `Scenarios.NoMatchingKey` | tkget/main.c:59 | that layout reports nothing under either rule |
| `Scenarios.CaseShape` | tkget/main.c:48-70 | the layout of `{"Access_Token":"v"}` is a complete document |
| `Scenarios.CaseDifferingDocument` | tkget/main.c:59 | that layout reports nothing under either rule |
| `Scenarios.PrefixShape` | tkget/main.c:48-70 | the layout of `{"a":"x"}` is a complete document |
| `Scenarios.PrefixKeyAsWritten` | tkget/main.c:59 | under the key test as written, that layout reports `x` |
| `Scenarios.PrefixKeyExact` | tkget/main.c:59 | under exact matching that layout reports nothing |

## Left out

- The jsmn tokenizer (`jsmn_init`, `jsmn_parse`) is not part of this model. Its
  source (`jsmn.h`) is not among the files modelled. The token array is an
  input that satisfies `WellFormedValue`. `MatchesOrdered` also assumes jsmn
  writes tokens in increasing start order.
- `main`'s read loop is not modelled: the `fread` calls, the buffer append, the
  retry on `JSMN_ERROR_NOMEM` and the exit codes. It is I/O and allocation
  around the foreign parser. Only its call of the walker at `tkget/main.c:141`
  is modelled, as `WalkDocument`.
- `realloc_it` is not modelled. It is memory allocation only.
- Output formatting: a report is the span `[start, end)`, not the printed line.
  `printf("%.*s\n", ...)` also stops at a NUL byte inside the span, and that
  truncation is not modelled.
- Integer widths: `j`, `i` and the return value are C `int`. Token counts are
  taken to fit in `int`. Unsigned wrap-around of `count - j` is ruled out by
  the proofs, not modelled.
- Inputs outside jsmn's layout are not modelled: a key with `size` above 1, a
  container used as a key, a value leaf with a non-zero `size`, or an undefined
  token inside a tree. On these, the C walker loses its place or reads out of
  bounds. `Walkable` excludes them. An undefined token is allowed only where the
  walk starts.
- `FindAccessToken`: a leaf root is covered whatever its `size`. A container is
  covered only when well-formed and no longer than `count`. For a container
  called with a smaller non-zero `count`, the walker's result is not
  described.

## Findings

| source | as written | input that shows it | evidently intended | confidence | as-written member | corrected member |
|---|---|---|---|---|---|---|
| tkget/main.c:59 | `strncmp("access_token", key, keylen) == 0` compares only `keylen` bytes, so every prefix of `access_token` matches, including the empty key | `{"a":"x"}` prints `x`; `{"":1}` prints `1` | report only keys equal to `access_token` | high; not executed | `Scenarios.PrefixKeyAsWritten` | `TkGet.ExactReportsOnlyTarget` |

The walker is generic over the key rule. `FindAccessToken(StrncmpPrefix, ...)`
is the program as written, and `FindAccessToken(ExactKey, ...)` is the
corrected one. Every walker contract and every lemma about `Matches` holds for
both rules.
