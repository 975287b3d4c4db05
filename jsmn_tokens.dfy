/** The flat token array that jsmn produces and the tree it encodes.

    A document is stored in pre-order: every token is immediately followed by the
    `size` subtrees that hang below it, and positions plus sizes are the only
    encoding of the tree. An object's `size` counts its keys; a key's `size` is 1
    when a value follows it; an array's `size` counts its elements. */
module JsmnTokens {

  /** The `type` field of a jsmn token. */
  datatype Kind = Undefined | Object | Array | String | Primitive

  /** One token: its kind, the half-open byte span `[start, end)` it covers in the
      buffer, and `size`, the number of subtrees that directly follow it. */
  datatype Token = Token(kind: Kind, start: nat, end: nat, size: nat)

  datatype Option<T> = None | Some(value: T)

  /** Strings and primitives: tokens the walker never descends into. */
  predicate IsLeaf(k: Kind) {
    k == String || k == Primitive
  }

  function Add(o: Option<nat>, x: nat): (r: Option<nat>) {
    match o
    case None => None
    case Some(v) => Some(v + x)
  }

  /** Number of tokens taken by `n` consecutive subtrees that start at `pos`,
      found by a left-to-right scan that keeps a count of pending subtrees:
      each token closes one and opens `size` new ones. `None` when the subtrees
      run past the end of the array. */
  ghost function Width(toks: seq<Token>, pos: nat, n: nat): (r: Option<nat>)
    ensures r.Some? ==> n <= r.value
    decreases |toks| - pos
  {
    if n == 0 then Some(0)
    else if pos >= |toks| then None
    else Add(Width(toks, pos + 1, n - 1 + toks[pos].size), 1)
  }

  /** `n` subtrees take at least `n` tokens, and they end inside the array. */
  lemma {:induction false} WidthBounds(toks: seq<Token>, pos: nat, n: nat)
    requires Width(toks, pos, n).Some?
    ensures pos <= |toks| ==> pos + Width(toks, pos, n).value <= |toks|
    decreases |toks| - pos
  {
    if n > 0 {
      WidthBounds(toks, pos + 1, n - 1 + toks[pos].size);
    }
  }

  /** The number of tokens of the subtree rooted at `pos`. */
  ghost function SubtreeLen(toks: seq<Token>, pos: nat): (r: nat)
    requires Width(toks, pos, 1).Some?
    ensures 1 <= r && pos + r <= |toks|
  {
    WidthBounds(toks, pos, 1);
    Width(toks, pos, 1).value
  }

  /** `a + b` subtrees are the first `a` subtrees followed by `b` more. */
  lemma {:induction false} WidthConcat(toks: seq<Token>, pos: nat, a: nat, b: nat)
    ensures Width(toks, pos, a + b) ==
            match Width(toks, pos, a)
            case None => None
            case Some(x) => Add(Width(toks, pos + x, b), x)
    decreases |toks| - pos
  {
    if a == 0 {
    } else if pos >= |toks| {
    } else {
      assert a + b - 1 + toks[pos].size == (a - 1 + toks[pos].size) + b;
      WidthConcat(toks, pos + 1, a - 1 + toks[pos].size, b);
    }
  }

  /** A JSON value as jsmn lays it out: a string or primitive without children,
      an object followed by its members, or an array followed by its elements.
      `js` is the buffer the key spans must lie in. */
  ghost predicate WellFormedValue(js: seq<char>, toks: seq<Token>, pos: nat)
    decreases |toks| - pos, 0
  {
    pos < |toks| && Width(toks, pos, 1).Some? &&
    match toks[pos].kind
    case Undefined => false
    case String => toks[pos].size == 0
    case Primitive => toks[pos].size == 0
    case Object => WellFormedMembers(js, toks, pos + 1, toks[pos].size)
    case Array => WellFormedElements(js, toks, pos + 1, toks[pos].size)
  }

  /** `n` object members starting at `pos`: each is a key (a string or primitive
      whose span lies in `js`) with `size` 0, or with `size` 1 followed by a value. */
  ghost predicate WellFormedMembers(js: seq<char>, toks: seq<Token>, pos: nat, n: nat)
    decreases |toks| - pos, n
  {
    n == 0 ||
    (pos < |toks| && IsLeaf(toks[pos].kind) && toks[pos].size <= 1 &&
     toks[pos].start <= toks[pos].end <= |js| &&
     if toks[pos].size == 0 then WellFormedMembers(js, toks, pos + 1, n - 1)
     else
       Width(toks, pos + 1, 1).Some? && WellFormedValue(js, toks, pos + 1) &&
       WellFormedMembers(js, toks, pos + 1 + Width(toks, pos + 1, 1).value, n - 1))
  }

  /** `n` array elements starting at `pos`, each a value. */
  ghost predicate WellFormedElements(js: seq<char>, toks: seq<Token>, pos: nat, n: nat)
    decreases |toks| - pos, n
  {
    n == 0 ||
    (pos < |toks| && Width(toks, pos, 1).Some? && WellFormedValue(js, toks, pos) &&
     WellFormedElements(js, toks, pos + Width(toks, pos, 1).value, n - 1))
  }

  /** The first of `n` members is a key whose span lies in `js`, followed, when
      its `size` is 1, by the value's subtree; the other `n - 1` members follow.
      `NextMember` is where they start. */
  ghost function NextMember(toks: seq<Token>, pos: nat): (r: nat)
    requires pos < |toks| && (toks[pos].size > 0 ==> Width(toks, pos + 1, 1).Some?)
  {
    if toks[pos].size == 0 then pos + 1 else pos + 1 + SubtreeLen(toks, pos + 1)
  }

  lemma MemberStep(js: seq<char>, toks: seq<Token>, pos: nat, n: nat, rest: nat)
    requires n > 0 && WellFormedMembers(js, toks, pos, n) && Width(toks, pos, n) == Some(rest)
    ensures pos < |toks| && IsLeaf(toks[pos].kind) && toks[pos].size <= 1
    ensures toks[pos].start <= toks[pos].end <= |js|
    ensures toks[pos].size > 0 ==> Width(toks, pos + 1, 1).Some? && WellFormedValue(js, toks, pos + 1)
    ensures pos < NextMember(toks, pos) <= pos + rest
    ensures Width(toks, NextMember(toks, pos), n - 1) == Some(rest - (NextMember(toks, pos) - pos))
    ensures WellFormedMembers(js, toks, NextMember(toks, pos), n - 1)
  {
    if toks[pos].size == 1 {
      WidthConcat(toks, pos + 1, 1, n - 1);
    }
  }

  /** The first of `n` elements is a value; the other `n - 1` follow its subtree. */
  lemma ElementStep(js: seq<char>, toks: seq<Token>, pos: nat, n: nat, rest: nat)
    requires n > 0 && WellFormedElements(js, toks, pos, n) && Width(toks, pos, n) == Some(rest)
    ensures WellFormedValue(js, toks, pos) && SubtreeLen(toks, pos) <= rest
    ensures Width(toks, pos + SubtreeLen(toks, pos), n - 1) == Some(rest - SubtreeLen(toks, pos))
    ensures WellFormedElements(js, toks, pos + SubtreeLen(toks, pos), n - 1)
  {
    WidthConcat(toks, pos, 1, n - 1);
  }
}
