/** The tree walker of `tkget`: a depth-first walk over jsmn's flat token array
    that reports the value of every object member whose key is `access_token`
    and returns the number of tokens the walked subtree occupies. */
module TkGet {
  import opened JsmnTokens
  import opened KeyMatch

  /** One reported value: the byte span `[start, end)` of the value token. */
  datatype ValueSpan = ValueSpan(start: nat, end: nat)

  function SpanOf(t: Token): (r: ValueSpan) {
    ValueSpan(t.start, t.end)
  }

  /** Token `k` is a key that has a value and passes the key test, so the value
      token at `k + 1` is reported. In a well-formed array only keys are leaves
      with a non-zero `size`. */
  predicate EmitsAt(rule: KeyRule, js: seq<char>, toks: seq<Token>, k: nat): (r: bool) {
    k + 1 < |toks| && IsLeaf(toks[k].kind) && toks[k].size > 0 &&
    toks[k].start <= toks[k].end <= |js| &&
    KeyMatches(rule, js[toks[k].start..toks[k].end])
  }

  /** The spans reported for the tokens in `[lo, hi)`, in index order. */
  ghost function Matches(rule: KeyRule, js: seq<char>, toks: seq<Token>, lo: nat, hi: nat): (r: seq<ValueSpan>)
    decreases toks, hi
  {
    if hi <= lo then []
    else
      Matches(rule, js, toks, lo, hi - 1) +
      (if EmitsAt(rule, js, toks, hi - 1) then [SpanOf(toks[hi])] else [])
  }

  /** Reports for adjacent ranges are concatenated. */
  lemma {:induction false} MatchesConcat(rule: KeyRule, js: seq<char>, toks: seq<Token>, lo: nat, mid: nat, hi: nat)
    requires lo <= mid <= hi
    ensures Matches(rule, js, toks, lo, hi) == Matches(rule, js, toks, lo, mid) + Matches(rule, js, toks, mid, hi)
    decreases hi
  {
    if hi > mid {
      MatchesConcat(rule, js, toks, lo, mid, hi - 1);
    }
  }

  /** Extending the range by one token adds that token's report, if any. */
  lemma MatchesStep(rule: KeyRule, js: seq<char>, toks: seq<Token>, lo: nat, k: nat)
    requires lo <= k
    ensures Matches(rule, js, toks, lo, k + 1) ==
            Matches(rule, js, toks, lo, k) + (if EmitsAt(rule, js, toks, k) then [SpanOf(toks[k + 1])] else [])
  {
  }

  /** `s` is the span of the token after a matching key in `[lo, hi)`. */
  ghost predicate ReportedFrom(rule: KeyRule, js: seq<char>, toks: seq<Token>, lo: nat, hi: nat, s: ValueSpan) {
    exists k :: lo <= k < hi && EmitsAt(rule, js, toks, k) && s == SpanOf(toks[k + 1])
  }

  /** Every reported span is the span of the token that follows a matching key in the range. */
  lemma {:induction false} MatchesSound(rule: KeyRule, js: seq<char>, toks: seq<Token>, lo: nat, hi: nat)
    ensures forall s :: s in Matches(rule, js, toks, lo, hi) ==> ReportedFrom(rule, js, toks, lo, hi, s)
    decreases hi
  {
    if hi > lo {
      MatchesSound(rule, js, toks, lo, hi - 1);
      forall s | s in Matches(rule, js, toks, lo, hi) ensures ReportedFrom(rule, js, toks, lo, hi, s) {
        if s in Matches(rule, js, toks, lo, hi - 1) {
          var k :| lo <= k < hi - 1 && EmitsAt(rule, js, toks, k) && s == SpanOf(toks[k + 1]);
        } else {
          assert EmitsAt(rule, js, toks, hi - 1) && s == SpanOf(toks[hi - 1 + 1]);
        }
      }
    }
  }

  /** Every matching key in the range has its value reported. */
  lemma MatchesComplete(rule: KeyRule, js: seq<char>, toks: seq<Token>, lo: nat, k: nat, hi: nat)
    requires lo <= k < hi && EmitsAt(rule, js, toks, k)
    ensures SpanOf(toks[k + 1]) in Matches(rule, js, toks, lo, hi)
  {
    MatchesConcat(rule, js, toks, lo, k + 1, hi);
  }

  /** With the exact comparison, every report is the value of a key whose bytes
      are exactly `access_token`. */
  lemma ExactReportsOnlyTarget(js: seq<char>, toks: seq<Token>, lo: nat, hi: nat)
    ensures forall s :: s in Matches(ExactKey, js, toks, lo, hi) ==>
              exists k :: lo <= k < hi && k + 1 < |toks| && toks[k].start <= toks[k].end <= |js| &&
                          js[toks[k].start..toks[k].end] == AccessToken && s == SpanOf(toks[k + 1])
  {
    MatchesSound(ExactKey, js, toks, lo, hi);
  }

  /** jsmn writes tokens in the order in which they start in the buffer. */
  ghost predicate StartsIncrease(toks: seq<Token>) {
    forall a, b :: 0 <= a < b < |toks| ==> toks[a].start < toks[b].start
  }

  ghost predicate InStartOrder(ms: seq<ValueSpan>) {
    forall a, b :: 0 <= a < b < |ms| ==> ms[a].start < ms[b].start
  }

  /** Reports come out in strictly increasing order of their start offsets. */
  lemma {:induction false} MatchesOrdered(rule: KeyRule, js: seq<char>, toks: seq<Token>, lo: nat, hi: nat)
    requires StartsIncrease(toks)
    ensures InStartOrder(Matches(rule, js, toks, lo, hi))
    decreases hi
  {
    if hi > lo {
      MatchesOrdered(rule, js, toks, lo, hi - 1);
      MatchesSound(rule, js, toks, lo, hi - 1);
      var prev := Matches(rule, js, toks, lo, hi - 1);
      var ms := Matches(rule, js, toks, lo, hi);
      assert ms == prev + (if EmitsAt(rule, js, toks, hi - 1) then [SpanOf(toks[hi])] else []);
      forall a, b | 0 <= a < b < |ms| ensures ms[a].start < ms[b].start {
        assert ms[a] == prev[a];
        if b >= |prev| {
          // the last report is the value at `hi`; every earlier one starts before it
          assert prev[a] in prev;
          var k :| lo <= k < hi - 1 && EmitsAt(rule, js, toks, k) && prev[a] == SpanOf(toks[k + 1]);
          assert toks[k + 1].start < toks[hi].start;
        } else {
          assert ms[b] == prev[b];
        }
      }
    }
  }

  /** What the walker needs to find at `pos` when it is called with `count`:
      nothing when `count` is 0; otherwise a token, and when that token is a
      container, a well-formed subtree no longer than `count`. */
  ghost predicate Walkable(js: seq<char>, toks: seq<Token>, pos: nat, count: nat) {
    count == 0 ||
    (pos < |toks| &&
     (toks[pos].kind == Undefined || IsLeaf(toks[pos].kind) ||
      (WellFormedValue(js, toks, pos) && SubtreeLen(toks, pos) <= count)))
  }

  /** The walk from the token at `pos`; `count` is the program's remaining-token
      argument, which it only tests for 0. The program prints each reported span;
      here they are appended to `emitted`, in the order they are printed. */
  method FindAccessToken(rule: KeyRule, js: seq<char>, toks: seq<Token>, pos: nat, count: nat)
    returns (consumed: nat, emitted: seq<ValueSpan>)
    requires Walkable(js, toks, pos, count)
    ensures consumed <= count && (count > 0 ==> pos + consumed <= |toks|)
    ensures count == 0 ==> consumed == 0 && emitted == []
    ensures count > 0 && toks[pos].kind == Undefined ==> consumed == 0 && emitted == []
    ensures count > 0 && IsLeaf(toks[pos].kind) ==> consumed == 1 && emitted == []
    ensures count > 0 && WellFormedValue(js, toks, pos) ==>
              consumed == SubtreeLen(toks, pos) &&
              emitted == Matches(rule, js, toks, pos, pos + consumed)
    decreases |toks| - pos, 1
  {
    if count == 0 {
      return 0, [];
    }
    match toks[pos].kind
    case Primitive =>
      assert toks[pos].size == 0 ==> Width(toks, pos, 1) == Some(1);
      return 1, [];
    case String =>
      assert toks[pos].size == 0 ==> Width(toks, pos, 1) == Some(1);
      return 1, [];
    case Object =>
      consumed, emitted := WalkObject(rule, js, toks, pos, count);
    case Array =>
      consumed, emitted := WalkArray(rule, js, toks, pos, count);
    case Undefined =>
      return 0, [];
  }

  /** The object case: walk the members one after another. */
  method WalkObject(rule: KeyRule, js: seq<char>, toks: seq<Token>, pos: nat, count: nat)
    returns (consumed: nat, emitted: seq<ValueSpan>)
    requires pos < |toks| && toks[pos].kind == Object
    requires WellFormedValue(js, toks, pos) && SubtreeLen(toks, pos) <= count
    ensures consumed == SubtreeLen(toks, pos)
    ensures emitted == Matches(rule, js, toks, pos, pos + consumed)
    decreases |toks| - pos, 0
  {
    var t := toks[pos];
    ghost var total := SubtreeLen(toks, pos) - 1;
    var j: nat := 0;
    var i: nat := 0;
    emitted := [];
    while i < t.size
      invariant i <= t.size && j <= total
      invariant Width(toks, pos + 1 + j, t.size - i) == Some(total - j)
      invariant WellFormedMembers(js, toks, pos + 1 + j, t.size - i)
      invariant emitted == Matches(rule, js, toks, pos, pos + 1 + j)
    {
      MemberStep(js, toks, pos + 1 + j, t.size - i, total - j);
      ghost var next := NextMember(toks, pos + 1 + j);
      var memberLen, memberOut := WalkMember(rule, js, toks, pos + 1 + j, count - j);
      MatchesConcat(rule, js, toks, pos, pos + 1 + j, next);
      j := j + memberLen;
      emitted := emitted + memberOut;
      assert pos + 1 + j == next;
      i := i + 1;
    }
    consumed := j + 1;
  }

  /** One member of an object, with the key at `keyPos` and `count` the
      remaining-token argument at that point: walk the key, report the next token
      when the key passes the key test and has a value, then walk the value.
      Returns how far the object's cursor advances. */
  method WalkMember(rule: KeyRule, js: seq<char>, toks: seq<Token>, keyPos: nat, count: nat)
    returns (advance: nat, emitted: seq<ValueSpan>)
    requires keyPos < |toks| && IsLeaf(toks[keyPos].kind)
    requires toks[keyPos].start <= toks[keyPos].end <= |js|
    requires toks[keyPos].size > 0 ==>
               Width(toks, keyPos + 1, 1).Some? && WellFormedValue(js, toks, keyPos + 1)
    requires NextMember(toks, keyPos) - keyPos <= count
    ensures advance == NextMember(toks, keyPos) - keyPos
    ensures emitted == Matches(rule, js, toks, keyPos, NextMember(toks, keyPos))
    decreases |toks| - keyPos, 2
  {
    var key := toks[keyPos];
    var j: nat;
    j, emitted := FindAccessToken(rule, js, toks, keyPos, count);
    if KeyMatches(rule, js[key.start..key.end]) {
      if key.size > 0 {
        var val := toks[keyPos + j];
        emitted := emitted + [SpanOf(val)];
      }
    }
    MatchesStep(rule, js, toks, keyPos, keyPos);
    assert emitted == Matches(rule, js, toks, keyPos, keyPos + 1);
    if key.size > 0 {
      var valLen, valOut := FindAccessToken(rule, js, toks, keyPos + j, count - j);
      MatchesConcat(rule, js, toks, keyPos, keyPos + j, keyPos + j + valLen);
      j := j + valLen;
      emitted := emitted + valOut;
    }
    advance := j;
  }

  /** The array case: walk each element in turn. */
  method WalkArray(rule: KeyRule, js: seq<char>, toks: seq<Token>, pos: nat, count: nat)
    returns (consumed: nat, emitted: seq<ValueSpan>)
    requires pos < |toks| && toks[pos].kind == Array
    requires WellFormedValue(js, toks, pos) && SubtreeLen(toks, pos) <= count
    ensures consumed == SubtreeLen(toks, pos)
    ensures emitted == Matches(rule, js, toks, pos, pos + consumed)
    decreases |toks| - pos, 0
  {
    var t := toks[pos];
    ghost var total := SubtreeLen(toks, pos) - 1;
    var j: nat := 0;
    var i: nat := 0;
    emitted := [];
    while i < t.size
      invariant i <= t.size && j <= total
      invariant Width(toks, pos + 1 + j, t.size - i) == Some(total - j)
      invariant WellFormedElements(js, toks, pos + 1 + j, t.size - i)
      invariant emitted == Matches(rule, js, toks, pos, pos + 1 + j)
    {
      ElementStep(js, toks, pos + 1 + j, t.size - i, total - j);
      ghost var next := pos + 1 + j + SubtreeLen(toks, pos + 1 + j);
      var elemLen, elemOut := FindAccessToken(rule, js, toks, pos + 1 + j, count - j);
      MatchesConcat(rule, js, toks, pos, pos + 1 + j, next);
      j := j + elemLen;
      emitted := emitted + elemOut;
      assert pos + 1 + j == next;
      i := i + 1;
    }
    consumed := j + 1;
  }

  /** The driver's call once jsmn has parsed the buffer: the walk from the first
      token with `count` equal to the number of tokens written. For a single
      complete document it returns the number of tokens. */
  method WalkDocument(rule: KeyRule, js: seq<char>, toks: seq<Token>)
    returns (consumed: nat, emitted: seq<ValueSpan>)
    requires toks == [] || WellFormedValue(js, toks, 0)
    ensures consumed <= |toks|
    ensures toks != [] ==> consumed == SubtreeLen(toks, 0)
    ensures Width(toks, 0, 1) == Some(|toks|) ==> consumed == |toks|
    ensures emitted == Matches(rule, js, toks, 0, consumed)
  {
    consumed, emitted := FindAccessToken(rule, js, toks, 0, |toks|);
  }
}
