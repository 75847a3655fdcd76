/**
 * The pieces of JavaScript's string and object semantics that the core relies on:
 * the `\s` character class (shared by `String.prototype.trim`), `toLowerCase`
 * restricted to ASCII, `startsWith`/`endsWith`, truthiness of JSON request-body
 * values, and property lookup on a plain object, which also sees the names that
 * every object inherits from `Object.prototype`.
 */
module JsText {

  /** The characters matched by `\s` and removed by `trim()`: WhiteSpace and LineTerminator. */
  predicate IsWhitespace(c: char) {
    || c == ' ' || c == '\t' || c == '\n' || c == '\r'
    || c == '\U{B}' || c == '\U{C}' || c == '\U{A0}' || c == '\U{1680}'
    || ('\U{2000}' <= c <= '\U{200A}')
    || c == '\U{2028}' || c == '\U{2029}' || c == '\U{202F}' || c == '\U{205F}'
    || c == '\U{3000}' || c == '\U{FEFF}'
  }

  predicate NoWhitespace(s: string) {
    forall i :: 0 <= i < |s| ==> !IsWhitespace(s[i])
  }

  /** `trimStart()`: drops the longest prefix made of whitespace. */
  function TrimStart(s: string): (r: string)
    ensures |r| <= |s| && r == s[|s| - |r|..]
    ensures forall i :: 0 <= i < |s| - |r| ==> IsWhitespace(s[i])
    ensures r == [] || !IsWhitespace(r[0])
    decreases |s|
  {
    if s != [] && IsWhitespace(s[0]) then TrimStart(s[1..]) else s
  }

  /** `trimEnd()`: drops the longest suffix made of whitespace. */
  function TrimEnd(s: string): (r: string)
    ensures |r| <= |s| && r == s[..|r|]
    ensures forall i :: |r| <= i < |s| ==> IsWhitespace(s[i])
    ensures r == [] || !IsWhitespace(r[|r| - 1])
    decreases |s|
  {
    if s != [] && IsWhitespace(s[|s| - 1]) then TrimEnd(s[..|s| - 1]) else s
  }

  /** `r` is the stretch of `s` starting at `a`, with only whitespace before and after it. */
  predicate TrimSlice(s: string, r: string, a: int) {
    && 0 <= a <= |s| - |r|
    && r == s[a..a + |r|]
    && (forall i :: 0 <= i < a ==> IsWhitespace(s[i]))
    && (forall i :: a + |r| <= i < |s| ==> IsWhitespace(s[i]))
  }

  /**
   * `trim()`: a contiguous stretch of `s` with only whitespace outside it, which itself
   * neither starts nor ends with whitespace.
   */
  function Trim(s: string): (r: string)
    ensures |r| <= |s|
    ensures TrimSlice(s, r, |s| - |TrimStart(s)|)
    ensures r == [] || (!IsWhitespace(r[0]) && !IsWhitespace(r[|r| - 1]))
  {
    TrimEndSlice(TrimStart(s));
    TrimSliceOfSuffix(s, TrimStart(s), TrimEnd(TrimStart(s)));
    TrimEnd(TrimStart(s))
  }

  lemma TrimEndSlice(t: string)
    ensures TrimSlice(t, TrimEnd(t), 0)
  {
  }

  /** A trimmed stretch of a suffix `t` of `s`, after only whitespace, sits in `s` after that whitespace. */
  lemma TrimSliceOfSuffix(s: string, t: string, r: string)
    requires |t| <= |s| && t == s[|s| - |t|..]
    requires forall i :: 0 <= i < |s| - |t| ==> IsWhitespace(s[i])
    requires TrimSlice(t, r, 0)
    ensures TrimSlice(s, r, |s| - |t|)
  {
    var a := |s| - |t|;
    assert r == s[a..a + |r|];
    forall i | a + |r| <= i < |s| ensures IsWhitespace(s[i]) {
      assert s[i] == t[i - a];
    }
  }

  /** A string without whitespace is its own trim. */
  lemma TrimNoWhitespace(s: string)
    requires NoWhitespace(s)
    ensures Trim(s) == s
  {
  }

  predicate IsAsciiUpper(c: char) {
    'A' <= c <= 'Z'
  }

  function LowerChar(c: char): (d: char)
    ensures IsAsciiUpper(c) ==> d as int == c as int + 32
    ensures !IsAsciiUpper(c) ==> d == c
  {
    if IsAsciiUpper(c) then (c as int + 32) as char else c
  }

  /** `toLowerCase()` on ASCII letters; every other character is kept. */
  function Lower(s: string): (r: string)
    ensures |r| == |s|
    ensures forall i :: 0 <= i < |s| ==> r[i] == LowerChar(s[i])
  {
    seq(|s|, i requires 0 <= i < |s| => LowerChar(s[i]))
  }

  /** Lowering twice is lowering once. */
  lemma LowerIdempotent(s: string)
    ensures Lower(Lower(s)) == Lower(s)
  {
    var once := Lower(s);
    var twice := Lower(once);
    forall i | 0 <= i < |s|
      ensures twice[i] == once[i]
    {
      assert !IsAsciiUpper(once[i]);
    }
  }

  /** Lowering changes only ASCII capitals, so it neither creates nor removes whitespace. */
  lemma LowerKeepsWhitespace(s: string)
    ensures forall i :: 0 <= i < |s| ==> (IsWhitespace(Lower(s)[i]) <==> IsWhitespace(s[i]))
    ensures NoWhitespace(s) ==> NoWhitespace(Lower(s))
  {
  }

  /** Lowering the letters commutes with dropping leading whitespace. */
  lemma {:induction false} LowerTrimStart(s: string)
    ensures TrimStart(Lower(s)) == Lower(TrimStart(s))
    decreases |s|
  {
    if s != [] {
      LowerCharKeepsWhitespace(s[0]);
      assert Lower(s)[0] == LowerChar(s[0]);
      if IsWhitespace(s[0]) {
        assert Lower(s)[1..] == Lower(s[1..]);
        LowerTrimStart(s[1..]);
      } else {
        assert TrimStart(Lower(s)) == Lower(s);
      }
    }
  }

  /** Lowering the letters commutes with dropping trailing whitespace. */
  lemma {:induction false} LowerTrimEnd(s: string)
    ensures TrimEnd(Lower(s)) == Lower(TrimEnd(s))
    decreases |s|
  {
    if s != [] {
      var last := |s| - 1;
      LowerCharKeepsWhitespace(s[last]);
      assert Lower(s)[last] == LowerChar(s[last]);
      if IsWhitespace(s[last]) {
        assert Lower(s)[..last] == Lower(s[..last]);
        LowerTrimEnd(s[..last]);
        calc {
          TrimEnd(Lower(s));
          TrimEnd(Lower(s[..last]));
          Lower(TrimEnd(s[..last]));
          Lower(TrimEnd(s));
        }
      } else {
        assert TrimEnd(Lower(s)) == Lower(s);
      }
    }
  }

  lemma LowerCharKeepsWhitespace(c: char)
    ensures IsWhitespace(LowerChar(c)) <==> IsWhitespace(c)
  {
  }

  /** Lowering and trimming can be done in either order. */
  lemma LowerTrimCommute(s: string)
    ensures Trim(Lower(s)) == Lower(Trim(s))
  {
    LowerTrimStart(s);
    LowerTrimEnd(TrimStart(s));
  }

  /**
   * `s.length`: JavaScript strings count UTF-16 code units, so a character above
   * U+FFFF (a surrogate pair) counts twice.
   */
  function Utf16Length(s: string): (n: nat)
    ensures |s| <= n <= 2 * |s|
    decreases |s|
  {
    if s == [] then 0
    else Utf16Length(s[..|s| - 1]) + (if s[|s| - 1] as int > 0xFFFF then 2 else 1)
  }

  /** The code units of a concatenation are those of its parts. */
  lemma {:induction false} Utf16LengthAppend(a: string, b: string)
    ensures Utf16Length(a + b) == Utf16Length(a) + Utf16Length(b)
    decreases |b|
  {
    if b == [] {
      assert a + b == a;
    } else {
      var b' := b[..|b| - 1];
      assert (a + b)[..|a + b| - 1] == a + b';
      assert (a + b)[|a + b| - 1] == b[|b| - 1];
      Utf16LengthAppend(a, b');
    }
  }

  /** A stretch of a string has no more code units than the whole. */
  lemma Utf16LengthSlice(s: string, lo: int, hi: int)
    requires 0 <= lo <= hi <= |s|
    ensures Utf16Length(s[lo..hi]) <= Utf16Length(s)
  {
    var before, mid, after := s[..lo], s[lo..hi], s[hi..];
    assert s == (before + mid) + after;
    Utf16LengthAppend(before + mid, after);
    Utf16LengthAppend(before, mid);
  }

  /** Trimming never adds code units. */
  lemma Utf16LengthTrim(s: string)
    ensures Utf16Length(Trim(s)) <= Utf16Length(s)
  {
    var r := Trim(s);
    var a := |s| - |TrimStart(s)|;
    Utf16LengthSlice(s, a, a + |r|);
  }

  predicate StartsWith(s: string, prefix: string) {
    |prefix| <= |s| && s[..|prefix|] == prefix
  }

  predicate EndsWith(s: string, suffix: string) {
    |suffix| <= |s| && s[|s| - |suffix|..] == suffix
  }

  /** A value found in a parsed JSON request body (an absent field is `Undefined`). */
  datatype JsValue =
    | Undefined
    | Null
    | Bool(b: bool)
    | Num(n: int)
    | Str(s: string)
    | Object

  /** JavaScript's `!!v`. */
  predicate Truthy(v: JsValue) {
    match v
    case Undefined => false
    case Null => false
    case Bool(b) => b
    case Num(n) => n != 0
    case Str(s) => s != ""
    case Object => true
  }

  /** The truthy strings are exactly the non-empty ones. */
  lemma TruthyString(v: JsValue)
    requires v.Str?
    ensures Truthy(v) <==> |v.s| > 0
  {
  }

  /** The names every plain object inherits from `Object.prototype`. */
  const OBJECT_PROTOTYPE_NAMES: set<string> := {
    "constructor", "__proto__", "hasOwnProperty", "isPrototypeOf",
    "propertyIsEnumerable", "toString", "toLocaleString", "valueOf",
    "__defineGetter__", "__defineSetter__", "__lookupGetter__", "__lookupSetter__"
  }

  /**
   * What `obj[key]` yields on a plain object whose own string-valued properties are `own`:
   * an own value, an inherited member of `Object.prototype` (a function or an object,
   * never a string), or `undefined`.
   */
  datatype Property = Own(value: string) | Inherited(name: string) | Absent

  function GetProperty(own: map<string, string>, key: string): (p: Property)
    ensures p.Own? <==> key in own
    ensures p.Own? ==> p.value == own[key]
    ensures p.Inherited? <==> key !in own && key in OBJECT_PROTOTYPE_NAMES
  {
    if key in own then Own(own[key])
    else if key in OBJECT_PROTOTYPE_NAMES then Inherited(key)
    else Absent
  }

  /** `obj[key]` restricted to own properties (what `Object.hasOwn` would admit). */
  function GetOwnProperty(own: map<string, string>, key: string): (p: Property)
    ensures !p.Inherited?
    ensures p.Own? <==> key in own
    ensures p.Own? ==> p.value == own[key]
  {
    if key in own then Own(own[key]) else Absent
  }

  /**
   * `obj[key] = value` for a string `value` on a plain object: the key `__proto__` hits
   * the inherited accessor, which ignores anything but an object or null, so nothing is
   * added; every other key becomes an own property.
   */
  function SetProperty(own: map<string, string>, key: string, value: string): (r: map<string, string>)
    ensures key == "__proto__" ==> r == own
    ensures key != "__proto__" ==> r == own[key := value]
  {
    if key == "__proto__" then own else own[key := value]
  }

  /** `!!obj[key]`: inherited members are functions or objects, hence truthy. */
  predicate PropertyTruthy(p: Property) {
    match p
    case Own(v) => v != ""
    case Inherited(_) => true
    case Absent => false
  }
}
