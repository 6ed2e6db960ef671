/** The handful of PHP built-ins the plugin relies on, over byte strings.
    A PHP string is a sequence of bytes; here it is a Dafny `string` whose
    characters each stand for one byte. */
module Php {

  /** A value that may be missing: an absent array key, or a JSON `null`. */
  datatype Option<T> = None | Some(value: T) {
    /** PHP's null-coalescing `$x ?? $default`. */
    function GetOr(default: T): T {
      match this
      case Some(v) => v
      case None => default
    }
  }

  /** The outcome of an operation that may throw. */
  datatype Result<T, E> = Ok(value: T) | Err(error: E)

  /** DIRECTORY_SEPARATOR on the platforms the plugin runs on. */
  const Separator: char := '/'

  /** `implode(DIRECTORY_SEPARATOR, [a, b])`, also `a . DIRECTORY_SEPARATOR . b`. */
  function Join(a: string, b: string): string {
    a + [Separator] + b
  }

  /** `strpos(s, prefix) === 0`: a prefix test, not a substring test. */
  predicate StartsWith(s: string, prefix: string) {
    |prefix| <= |s| && s[..|prefix|] == prefix
  }

  /** A prefix test in both directions: `s` starts with `prefix` exactly when
      it is `prefix` followed by the rest of `s`, whatever that rest holds. */
  lemma StartsWithMeansPrefix(s: string, prefix: string, rest: string)
    ensures StartsWith(s, prefix) <==> |prefix| <= |s| && s == prefix + s[|prefix|..]
    ensures StartsWith(prefix + rest, prefix)
  {
    if |prefix| <= |s| {
      assert s == s[..|prefix|] + s[|prefix|..];
    }
    assert (prefix + rest)[..|prefix|] == prefix;
  }

  function LowerChar(c: char): char {
    if 'A' <= c <= 'Z' then (c as int + 32) as char else c
  }

  function UpperChar(c: char): char {
    if 'a' <= c <= 'z' then (c as int - 32) as char else c
  }

  /** `strtolower`, which since PHP 8.2 maps ASCII letters only. */
  function Lower(s: string): (r: string)
    ensures |r| == |s|
    ensures forall i :: 0 <= i < |s| ==> r[i] == LowerChar(s[i])
  {
    seq(|s|, i requires 0 <= i < |s| => LowerChar(s[i]))
  }

  /** `strtoupper`, ASCII letters only. */
  function Upper(s: string): (r: string)
    ensures |r| == |s|
    ensures forall i :: 0 <= i < |s| ==> r[i] == UpperChar(s[i])
  {
    seq(|s|, i requires 0 <= i < |s| => UpperChar(s[i]))
  }

  /** Position of the last occurrence of `c` in `s` (`strrpos`), or None. */
  function LastIndexOf(s: string, c: char): (r: Option<nat>)
    ensures r.None? <==> c !in s
    ensures r.Some? ==> r.value < |s| && s[r.value] == c && c !in s[r.value + 1..]
  {
    if |s| == 0 then None
    else if s[|s| - 1] == c then Some(|s| - 1)
    else
      var r := LastIndexOf(s[..|s| - 1], c);
      assert r.Some? ==> s[r.value + 1..] == s[..|s| - 1][r.value + 1..] + [s[|s| - 1]];
      r
  }

  /** The text after the last dot of `s`, or None when `s` holds no dot. */
  function AfterLastDot(s: string): Option<string> {
    if s == [] then None
    else if s[|s| - 1] == '.' then Some("")
    else
      match AfterLastDot(s[..|s| - 1])
      case None => None
      case Some(e) => Some(e + [s[|s| - 1]])
  }

  /** `pathinfo(name, PATHINFO_EXTENSION)` for a directory entry name (which
      holds no separator): the text after the last dot, or "" without a dot. */
  function Extension(name: string): string {
    AfterLastDot(name).GetOr("")
  }

  /** The extension is what follows the last dot: it holds no dot, it is
      empty when the name has none, and otherwise the name ends in a dot
      followed by it. */
  lemma {:induction false} ExtensionAfterLastDot(name: string)
    ensures '.' !in Extension(name)
    ensures '.' !in name ==> Extension(name) == ""
    ensures '.' in name ==>
      (|Extension(name)| < |name| && name[|name| - |Extension(name)| - 1] == '.' &&
       name[|name| - |Extension(name)|..] == Extension(name))
  {
    if name != [] && name[|name| - 1] != '.' {
      var init := name[..|name| - 1];
      ExtensionAfterLastDot(init);
      assert name == init + [name[|name| - 1]];
      if '.' in name {
        assert '.' in init;
        var e := Extension(init);
        assert Extension(name) == e + [name[|name| - 1]];
        assert name[|name| - |e| - 1..] == init[|init| - |e|..] + [name[|name| - 1]];
      }
    }
  }

  lemma {:induction false} JoinSplitsAtLastSeparator(a: string, b: string)
    requires Separator !in b
    ensures LastIndexOf(Join(a, b), Separator) == Some(|a|)
    ensures Join(a, b)[..|a|] == a && Join(a, b)[|a| + 1..] == b
  {
    var s := Join(a, b);
    assert s[|a|] == Separator;
    assert s[|a| + 1..] == b;
  }
}
