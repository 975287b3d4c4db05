/** Concrete documents with the tokens jsmn produces for them, and what the
    walker reports on each (through `TkGet.WalkDocument`, whose result is
    `Matches` over the whole token array).

    For each document, a `...Layout` predicate lists what the walker can see of
    it: the token fields, the buffer length and the key bytes. The document
    lemma holds for every buffer and token array with that layout, and a
    `...Text` lemma shows that the document's own text and tokens have it. */
module Scenarios {
  import opened JsmnTokens
  import opened KeyMatch
  import opened TkGet

  /** A complete document: one well-formed value that covers every token. */
  ghost predicate CompleteDocument(js: string, toks: seq<Token>) {
    WellFormedValue(js, toks, 0) && Width(toks, 0, 1) == Some(|toks|)
  }

  /** An object with one member, whose key is a leaf and whose value is a
      well-formed subtree of `len` tokens, is a well-formed value of `2 + len`
      tokens. */
  lemma {:induction false} SingleMemberShape(js: string, toks: seq<Token>, pos: nat, len: nat)
    requires pos + 2 <= |toks|
    requires toks[pos].kind == Object && toks[pos].size == 1
    requires IsLeaf(toks[pos + 1].kind) && toks[pos + 1].size == 1
    requires toks[pos + 1].start <= toks[pos + 1].end <= |js|
    requires WellFormedValue(js, toks, pos + 2) && Width(toks, pos + 2, 1) == Some(len)
    ensures WellFormedValue(js, toks, pos) && Width(toks, pos, 1) == Some(2 + len)
  {
    WidthBounds(toks, pos + 2, 1);
    assert Width(toks, pos + 1, 1) == Some(1 + len);
    assert WellFormedMembers(js, toks, pos + 1, 1);
  }

  /** An object whose one key is a leaf with a value reports the value's span when the key passes the key
      test, then whatever the value's subtree reports. */
  lemma {:induction false} SingleMemberReports(rule: KeyRule, js: string, toks: seq<Token>, pos: nat, len: nat)
    requires pos + 2 < |toks|
    requires toks[pos].kind == Object
    requires IsLeaf(toks[pos + 1].kind) && toks[pos + 1].size == 1
    requires toks[pos + 1].start <= toks[pos + 1].end <= |js|
    ensures Matches(rule, js, toks, pos, pos + 2 + len) ==
            (if KeyMatches(rule, js[toks[pos + 1].start..toks[pos + 1].end])
             then [SpanOf(toks[pos + 2])] else []) +
            Matches(rule, js, toks, pos + 2, pos + 2 + len)
  {
    MatchesStep(rule, js, toks, pos, pos);
    MatchesStep(rule, js, toks, pos, pos + 1);
    MatchesConcat(rule, js, toks, pos, pos + 2, pos + 2 + len);
  }

  /** An object with one member whose value is a string or primitive is a
      well-formed value of three tokens. */
  lemma {:induction false} OneMemberShape(js: string, toks: seq<Token>, pos: nat)
    requires pos + 3 <= |toks|
    requires toks[pos].kind == Object && toks[pos].size == 1
    requires IsLeaf(toks[pos + 1].kind) && toks[pos + 1].size == 1
    requires toks[pos + 1].start <= toks[pos + 1].end <= |js|
    requires IsLeaf(toks[pos + 2].kind) && toks[pos + 2].size == 0
    ensures WellFormedValue(js, toks, pos) && Width(toks, pos, 1) == Some(3)
  {
    assert Width(toks, pos + 2, 1) == Some(1);
    SingleMemberShape(js, toks, pos, 1);
  }

  /** An object with one member whose value is a leaf reports that value
      exactly when its key passes the key test. */
  lemma {:induction false} OneMemberReports(rule: KeyRule, js: string, toks: seq<Token>, pos: nat)
    requires pos + 3 <= |toks|
    requires toks[pos].kind == Object
    requires IsLeaf(toks[pos + 1].kind) && toks[pos + 1].size == 1
    requires toks[pos + 1].start <= toks[pos + 1].end <= |js|
    requires toks[pos + 2].size == 0
    ensures Matches(rule, js, toks, pos, pos + 3) ==
            if KeyMatches(rule, js[toks[pos + 1].start..toks[pos + 1].end])
            then [SpanOf(toks[pos + 2])] else []
  {
    MatchesStep(rule, js, toks, pos + 2, pos + 2);
    SingleMemberReports(rule, js, toks, pos, 1);
  }

  /** An array of two well-formed elements, of `a` and `b` tokens, is a
      well-formed value of `1 + a + b` tokens. */
  lemma {:induction false} TwoElementShape(js: string, toks: seq<Token>, pos: nat, a: nat, b: nat)
    requires pos < |toks| && toks[pos].kind == Array && toks[pos].size == 2
    requires WellFormedValue(js, toks, pos + 1) && Width(toks, pos + 1, 1) == Some(a)
    requires WellFormedValue(js, toks, pos + 1 + a) && Width(toks, pos + 1 + a, 1) == Some(b)
    ensures WellFormedValue(js, toks, pos) && Width(toks, pos, 1) == Some(1 + a + b)
  {
    WidthConcat(toks, pos + 1, 1, 1);
    assert Width(toks, pos + 1 + a, 0) == Some(0);
    assert WellFormedElements(js, toks, pos + 1 + a, 1);
    assert WellFormedElements(js, toks, pos + 1, 2);
  }

  /** An array whose elements take `a` and then `b` tokens reports what the
      first element reports, then what the second reports. */
  lemma {:induction false} TwoElementReports(rule: KeyRule, js: string, toks: seq<Token>, pos: nat, a: nat, b: nat)
    requires pos < |toks| && toks[pos].kind == Array
    ensures Matches(rule, js, toks, pos, pos + 1 + a + b) ==
            Matches(rule, js, toks, pos + 1, pos + 1 + a) + Matches(rule, js, toks, pos + 1 + a, pos + 1 + a + b)
  {
    MatchesStep(rule, js, toks, pos, pos);
    assert Matches(rule, js, toks, pos, pos + 1) == [];
    MatchesConcat(rule, js, toks, pos, pos + 1, pos + 1 + a + b);
    MatchesConcat(rule, js, toks, pos + 1, pos + 1 + a, pos + 1 + a + b);
  }

  // {"access_token":"abc123"}

  const FlatJs: string := "{\"" + AccessToken + "\":\"" + "abc123" + "\"}"
  const FlatToks: seq<Token> :=
    [Token(Object, 0, 25, 1), Token(String, 2, 14, 1), Token(String, 17, 23, 0)]

  predicate FlatLayout(js: string, toks: seq<Token>) {
    |js| == 25 && js[2..14] == AccessToken &&
    |toks| == 3 &&
    toks[0].kind == Object && toks[0].start == 0 && toks[0].end == 25 && toks[0].size == 1 &&
    toks[1].kind == String && toks[1].start == 2 && toks[1].end == 14 && toks[1].size == 1 &&
    toks[2].kind == String && toks[2].start == 17 && toks[2].end == 23 && toks[2].size == 0
  }

  lemma FlatText()
    ensures FlatLayout(FlatJs, FlatToks) && FlatJs[17..23] == "abc123"
  {
  }

  /** An object with one member forms one document. */
  lemma {:induction false} FlatShape(js: string, toks: seq<Token>)
    requires FlatLayout(js, toks)
    ensures CompleteDocument(js, toks)
  {
    OneMemberShape(js, toks, 0);
  }

  /** A top-level member is reported. */
  lemma {:induction false} FlatDocument(rule: KeyRule, js: string, toks: seq<Token>)
    requires FlatLayout(js, toks)
    ensures Matches(rule, js, toks, 0, 3) == [ValueSpan(17, 23)]
  {
    OneMemberReports(rule, js, toks, 0);
    TargetKeyMatches(rule);
  }

  // {"foo":{"access_token":"nested"}}

  const NestedJs: string := "{\"" + "foo" + "\":{\"" + AccessToken + "\":\"" + "nested" + "\"}}"
  const NestedToks: seq<Token> :=
    [Token(Object, 0, 33, 1), Token(String, 2, 5, 1), Token(Object, 7, 32, 1),
     Token(String, 9, 21, 1), Token(String, 24, 30, 0)]

  predicate NestedLayout(js: string, toks: seq<Token>) {
    |js| == 33 && js[2..5] == "foo" && js[9..21] == AccessToken &&
    |toks| == 5 &&
    toks[0].kind == Object && toks[0].start == 0 && toks[0].end == 33 && toks[0].size == 1 &&
    toks[1].kind == String && toks[1].start == 2 && toks[1].end == 5 && toks[1].size == 1 &&
    toks[2].kind == Object && toks[2].start == 7 && toks[2].end == 32 && toks[2].size == 1 &&
    toks[3].kind == String && toks[3].start == 9 && toks[3].end == 21 && toks[3].size == 1 &&
    toks[4].kind == String && toks[4].start == 24 && toks[4].end == 30 && toks[4].size == 0
  }

  lemma NestedText()
    ensures NestedLayout(NestedJs, NestedToks) && NestedJs[24..30] == "nested"
  {
  }

  /** An object nested as a member value forms one document with its parent. */
  lemma {:induction false} NestedShape(js: string, toks: seq<Token>)
    requires NestedLayout(js, toks)
    ensures CompleteDocument(js, toks)
  {
    OneMemberShape(js, toks, 2);
    SingleMemberShape(js, toks, 0, 3);
  }

  /** A member inside a nested object is reported; the outer key is not the target. */
  lemma {:induction false} NestedDocument(rule: KeyRule, js: string, toks: seq<Token>)
    requires NestedLayout(js, toks)
    ensures Matches(rule, js, toks, 0, 5) == [ValueSpan(24, 30)]
  {
    OneMemberReports(rule, js, toks, 2);
    SingleMemberReports(rule, js, toks, 0, 3);
    FirstByteMismatch(rule, js[2..5]);
    TargetKeyMatches(rule);
  }

  // [{"access_token":"a"},{"access_token":"b"}]

  const ArrayJs: string := "[{\"" + AccessToken + "\":\"" + "a" + "\"},{\"" + AccessToken + "\":\"" + "b" + "\"}]"
  const ArrayToks: seq<Token> :=
    [Token(Array, 0, 43, 2),
     Token(Object, 1, 21, 1), Token(String, 3, 15, 1), Token(String, 18, 19, 0),
     Token(Object, 22, 42, 1), Token(String, 24, 36, 1), Token(String, 39, 40, 0)]

  predicate ArrayLayout(js: string, toks: seq<Token>) {
    |js| == 43 && js[3..15] == AccessToken && js[24..36] == AccessToken &&
    |toks| == 7 &&
    toks[0].kind == Array && toks[0].start == 0 && toks[0].end == 43 && toks[0].size == 2 &&
    toks[1].kind == Object && toks[1].start == 1 && toks[1].end == 21 && toks[1].size == 1 &&
    toks[2].kind == String && toks[2].start == 3 && toks[2].end == 15 && toks[2].size == 1 &&
    toks[3].kind == String && toks[3].start == 18 && toks[3].end == 19 && toks[3].size == 0 &&
    toks[4].kind == Object && toks[4].start == 22 && toks[4].end == 42 && toks[4].size == 1 &&
    toks[5].kind == String && toks[5].start == 24 && toks[5].end == 36 && toks[5].size == 1 &&
    toks[6].kind == String && toks[6].start == 39 && toks[6].end == 40 && toks[6].size == 0
  }

  lemma ArrayText()
    ensures ArrayLayout(ArrayJs, ArrayToks) && ArrayJs[18..19] == "a" && ArrayJs[39..40] == "b"
  {
  }

  /** An array of two objects forms one document. */
  lemma {:induction false} ArrayOfObjectsShape(js: string, toks: seq<Token>)
    requires ArrayLayout(js, toks)
    ensures CompleteDocument(js, toks)
  {
    OneMemberShape(js, toks, 1);
    OneMemberShape(js, toks, 4);
    TwoElementShape(js, toks, 0, 3, 3);
  }

  /** Members inside an array of objects are all reported, in document order. */
  lemma {:induction false} ArrayOfObjects(rule: KeyRule, js: string, toks: seq<Token>)
    requires ArrayLayout(js, toks)
    ensures Matches(rule, js, toks, 0, 7) == [ValueSpan(18, 19), ValueSpan(39, 40)]
  {
    OneMemberReports(rule, js, toks, 1);
    OneMemberReports(rule, js, toks, 4);
    TwoElementReports(rule, js, toks, 0, 3, 3);
    TargetKeyMatches(rule);
  }

  // {"access_token":null}

  const NullJs: string := "{\"" + AccessToken + "\":" + "null" + "}"
  const NullToks: seq<Token> :=
    [Token(Object, 0, 21, 1), Token(String, 2, 14, 1), Token(Primitive, 16, 20, 0)]

  predicate NullLayout(js: string, toks: seq<Token>) {
    |js| == 21 && js[2..14] == AccessToken &&
    |toks| == 3 &&
    toks[0].kind == Object && toks[0].start == 0 && toks[0].end == 21 && toks[0].size == 1 &&
    toks[1].kind == String && toks[1].start == 2 && toks[1].end == 14 && toks[1].size == 1 &&
    toks[2].kind == Primitive && toks[2].start == 16 && toks[2].end == 20 && toks[2].size == 0
  }

  lemma NullText()
    ensures NullLayout(NullJs, NullToks) && NullJs[16..20] == "null"
  {
  }

  /** A member with a primitive value forms one document. */
  lemma {:induction false} NullShape(js: string, toks: seq<Token>)
    requires NullLayout(js, toks)
    ensures CompleteDocument(js, toks)
  {
    OneMemberShape(js, toks, 0);
  }

  /** A primitive value is reported by its raw span. */
  lemma {:induction false} NullValue(rule: KeyRule, js: string, toks: seq<Token>)
    requires NullLayout(js, toks)
    ensures Matches(rule, js, toks, 0, 3) == [ValueSpan(16, 20)]
  {
    OneMemberReports(rule, js, toks, 0);
    TargetKeyMatches(rule);
  }

  // {"x":1}

  const OtherJs: string := "{\"" + "x" + "\":" + "1" + "}"
  const OtherToks: seq<Token> :=
    [Token(Object, 0, 7, 1), Token(String, 2, 3, 1), Token(Primitive, 5, 6, 0)]

  predicate OtherLayout(js: string, toks: seq<Token>) {
    |js| == 7 && js[2..3] == "x" &&
    |toks| == 3 &&
    toks[0].kind == Object && toks[0].start == 0 && toks[0].end == 7 && toks[0].size == 1 &&
    toks[1].kind == String && toks[1].start == 2 && toks[1].end == 3 && toks[1].size == 1 &&
    toks[2].kind == Primitive && toks[2].start == 5 && toks[2].end == 6 && toks[2].size == 0
  }

  lemma OtherText()
    ensures OtherLayout(OtherJs, OtherToks)
  {
  }

  /** An object whose only key is not the target forms one document. */
  lemma {:induction false} OtherShape(js: string, toks: seq<Token>)
    requires OtherLayout(js, toks)
    ensures CompleteDocument(js, toks)
  {
    OneMemberShape(js, toks, 0);
  }

  /** No member with the target key: nothing is reported. */
  lemma {:induction false} NoMatchingKey(rule: KeyRule, js: string, toks: seq<Token>)
    requires OtherLayout(js, toks)
    ensures Matches(rule, js, toks, 0, 3) == []
  {
    OneMemberReports(rule, js, toks, 0);
    FirstByteMismatch(rule, js[2..3]);
  }

  // {"Access_Token":"v"}

  const CaseJs: string := "{\"" + "Access_Token" + "\":\"" + "v" + "\"}"
  const CaseToks: seq<Token> :=
    [Token(Object, 0, 20, 1), Token(String, 2, 14, 1), Token(String, 17, 18, 0)]

  predicate CaseLayout(js: string, toks: seq<Token>) {
    |js| == 20 && js[2..14] == "Access_Token" &&
    |toks| == 3 &&
    toks[0].kind == Object && toks[0].start == 0 && toks[0].end == 20 && toks[0].size == 1 &&
    toks[1].kind == String && toks[1].start == 2 && toks[1].end == 14 && toks[1].size == 1 &&
    toks[2].kind == String && toks[2].start == 17 && toks[2].end == 18 && toks[2].size == 0
  }

  lemma CaseText()
    ensures CaseLayout(CaseJs, CaseToks)
  {
  }

  /** An object whose key differs from the target in case forms one document. */
  lemma {:induction false} CaseShape(js: string, toks: seq<Token>)
    requires CaseLayout(js, toks)
    ensures CompleteDocument(js, toks)
  {
    OneMemberShape(js, toks, 0);
  }

  /** A key that differs from the target only in case is not reported. */
  lemma {:induction false} CaseDifferingDocument(rule: KeyRule, js: string, toks: seq<Token>)
    requires CaseLayout(js, toks)
    ensures Matches(rule, js, toks, 0, 3) == []
  {
    OneMemberReports(rule, js, toks, 0);
    CaseDifferingKeyRejected(rule);
  }

  // {"a":"x"}

  const PrefixJs: string := "{\"" + "a" + "\":\"" + "x" + "\"}"
  const PrefixToks: seq<Token> :=
    [Token(Object, 0, 9, 1), Token(String, 2, 3, 1), Token(String, 6, 7, 0)]

  predicate PrefixLayout(js: string, toks: seq<Token>) {
    |js| == 9 && js[2..3] == "a" &&
    |toks| == 3 &&
    toks[0].kind == Object && toks[0].start == 0 && toks[0].end == 9 && toks[0].size == 1 &&
    toks[1].kind == String && toks[1].start == 2 && toks[1].end == 3 && toks[1].size == 1 &&
    toks[2].kind == String && toks[2].start == 6 && toks[2].end == 7 && toks[2].size == 0
  }

  lemma PrefixText()
    ensures PrefixLayout(PrefixJs, PrefixToks) && PrefixJs[6..7] == "x"
  {
  }

  /** An object whose key is a proper prefix of the target forms one document. */
  lemma {:induction false} PrefixShape(js: string, toks: seq<Token>)
    requires PrefixLayout(js, toks)
    ensures CompleteDocument(js, toks)
  {
    OneMemberShape(js, toks, 0);
  }

  /** The key `a` is only a prefix of the target, and the program as written
      reports its value. */
  lemma {:induction false} PrefixKeyAsWritten(js: string, toks: seq<Token>)
    requires PrefixLayout(js, toks)
    ensures Matches(StrncmpPrefix, js, toks, 0, 3) == [ValueSpan(6, 7)]
  {
    OneMemberReports(StrncmpPrefix, js, toks, 0);
    assert js[2..3] == AccessToken[..1];
    ProperPrefixMatches(js[2..3]);
  }

  /** The exact comparison reports nothing for the same document. */
  lemma {:induction false} PrefixKeyExact(js: string, toks: seq<Token>)
    requires PrefixLayout(js, toks)
    ensures Matches(ExactKey, js, toks, 0, 3) == []
  {
    OneMemberReports(ExactKey, js, toks, 0);
    assert js[2..3] == AccessToken[..1];
    ProperPrefixMatches(js[2..3]);
  }
}
