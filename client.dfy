/**
 * The request path the generated Angular client sends: every `:name`
 * placeholder of the endpoint's path is replaced by the text of the request
 * parameter of that name, parameters taken in their entries order, and the
 * result is appended to the base URL after a slash.
 */
module Paths {
  /** `JsonPrimitive`, with numbers restricted to integers. */
  datatype Primitive = Str(s: string) | Num(n: int) | Bool(b: bool)

  /** The decimal digits of a natural number, most significant first. */
  function NatText(n: nat): (t: string)
    ensures |t| >= 1
    ensures forall i :: 0 <= i < |t| ==> '0' <= t[i] <= '9'
    decreases n
  {
    var d := [(n % 10) as char + '0'];
    if n < 10 then d else NatText(n / 10) + d
  }

  predicate AllDigits(t: string) {
    forall i :: 0 <= i < |t| ==> '0' <= t[i] <= '9'
  }

  /** The number a string of decimal digits denotes, most significant first. */
  function DecimalValue(t: string): nat
    requires AllDigits(t)
    decreases |t|
  {
    if t == [] then 0 else DecimalValue(t[..|t| - 1]) * 10 + (t[|t| - 1] - '0') as nat
  }

  /** Reading the digits back gives the number. */
  lemma {:induction false} NatTextValue(n: nat)
    ensures DecimalValue(NatText(n)) == n
    decreases n
  {
    var t := NatText(n);
    if n >= 10 {
      NatTextValue(n / 10);
      assert t[..|t| - 1] == NatText(n / 10);
    }
  }

  /** `${value}` for a primitive: a string as it is, a number in decimal, a boolean as its name. */
  function PrimitiveText(p: Primitive): (r: string)
    ensures p.Str? ==> r == p.s
    ensures p.Bool? ==> (r == "true" <==> p.b) && (r == "false" <==> !p.b)
    ensures p.Num? ==> |r| >= 1 && (r[0] == '-' <==> p.n < 0)
    ensures p.Num? && p.n >= 0 ==> AllDigits(r) && DecimalValue(r) == p.n
    ensures p.Num? && p.n < 0 ==> AllDigits(r[1..]) && DecimalValue(r[1..]) == -p.n
  {
    match p
    case Str(s) => s
    case Num(n) =>
      if n < 0 then NatTextValue(-n); assert ("-" + NatText(-n))[1..] == NatText(-n); "-" + NatText(-n)
      else NatTextValue(n); NatText(n)
    case Bool(b) => if b then "true" else "false"
  }

  /** Whether `pat` occurs in `s` starting at `i`. */
  predicate OccursAt(s: string, pat: string, i: nat) {
    i + |pat| <= |s| && s[i..i + |pat|] == pat
  }

  /**
   * `s.replaceAll(pat, rep)` for a non-empty string pattern: occurrences are
   * found left to right, each search resuming after the previous occurrence,
   * and the replacement is inserted as it stands.
   */
  function ReplaceAll(s: string, pat: string, rep: string): (r: string)
    requires |pat| > 0
    ensures |s| < |pat| ==> r == s
    ensures forall c :: c in r ==> c in s || c in rep
    decreases |s|
  {
    if |s| < |pat| then s
    else if s[..|pat|] == pat then rep + ReplaceAll(s[|pat|..], pat, rep)
    else [s[0]] + ReplaceAll(s[1..], pat, rep)
  }

  /** A string in which the pattern never occurs comes back unchanged. */
  lemma {:induction false} ReplaceAllWithoutOccurrence(s: string, pat: string, rep: string)
    requires |pat| > 0
    requires forall i :: 0 <= i <= |s| ==> !OccursAt(s, pat, i)
    ensures ReplaceAll(s, pat, rep) == s
    decreases |s|
  {
    if |s| >= |pat| {
      assert !OccursAt(s, pat, 0);
      assert s[0..|pat|] == s[..|pat|];
      var t := s[1..];
      forall i | 0 <= i <= |t|
        ensures !OccursAt(t, pat, i)
      {
        assert !OccursAt(s, pat, i + 1);
        if i + |pat| <= |t| {
          assert t[i..i + |pat|] == s[i + 1..i + 1 + |pat|];
        }
      }
      ReplaceAllWithoutOccurrence(t, pat, rep);
      assert [s[0]] + t == s;
    }
  }

  /** Replacing the pattern by itself gives the string back. */
  lemma {:induction false} ReplaceAllBySelf(s: string, pat: string)
    requires |pat| > 0
    ensures ReplaceAll(s, pat, pat) == s
    decreases |s|
  {
    if |s| >= |pat| {
      if s[..|pat|] == pat {
        ReplaceAllBySelf(s[|pat|..], pat);
        assert s[..|pat|] + s[|pat|..] == s;
      } else {
        ReplaceAllBySelf(s[1..], pat);
        assert [s[0]] + s[1..] == s;
      }
    }
  }

  /** A replacement as long as the pattern keeps the length of the string. */
  lemma {:induction false} ReplaceAllSameLength(s: string, pat: string, rep: string)
    requires |pat| > 0 && |rep| == |pat|
    ensures |ReplaceAll(s, pat, rep)| == |s|
    decreases |s|
  {
    if |s| >= |pat| {
      if s[..|pat|] == pat {
        ReplaceAllSameLength(s[|pat|..], pat, rep);
      } else {
        ReplaceAllSameLength(s[1..], pat, rep);
      }
    }
  }

  /**
   * The first occurrence is replaced and the search resumes after it: when
   * `pat` does not start anywhere inside `a`, the string `a + pat + b`
   * becomes `a`, the replacement, and `b` with its own occurrences replaced.
   * With `ReplaceAllWithoutOccurrence` this fixes the result for every input.
   */
  lemma {:induction false} ReplaceAllSplit(a: string, pat: string, rep: string, b: string)
    requires |pat| > 0
    requires forall i :: 0 <= i < |a| ==> !OccursAt(a + pat + b, pat, i)
    ensures ReplaceAll(a + pat + b, pat, rep) == a + rep + ReplaceAll(b, pat, rep)
    decreases |a|
  {
    var s := a + pat + b;
    var tail := ReplaceAll(b, pat, rep);
    if a == [] {
      assert s[..|pat|] == pat && s[|pat|..] == b;
      assert ReplaceAll(s, pat, rep) == rep + tail;
    } else {
      DropFirstKeepsNoOccurrence(a, pat, b);
      assert ReplaceAll(s, pat, rep) == [a[0]] + ReplaceAll(a[1..] + pat + b, pat, rep);
      ReplaceAllSplit(a[1..], pat, rep, b);
      assert [a[0]] + (a[1..] + rep + tail) == a + rep + tail;
    }
  }

  /** Dropping the first character of `a` keeps `pat` from starting inside what is left of it. */
  lemma DropFirstKeepsNoOccurrence(a: string, pat: string, b: string)
    requires |pat| > 0 && a != []
    requires forall i :: 0 <= i < |a| ==> !OccursAt(a + pat + b, pat, i)
    ensures (a + pat + b)[..|pat|] != pat
    ensures (a + pat + b)[1..] == a[1..] + pat + b
    ensures forall i :: 0 <= i < |a| - 1 ==> !OccursAt(a[1..] + pat + b, pat, i)
  {
    var s := a + pat + b;
    var t := a[1..] + pat + b;
    assert !OccursAt(s, pat, 0);
    assert s[0..|pat|] == s[..|pat|];
    assert s[1..] == t;
    forall i | 0 <= i < |a| - 1
      ensures !OccursAt(t, pat, i)
    {
      assert !OccursAt(s, pat, i + 1);
      if i + |pat| <= |t| {
        assert t[i..i + |pat|] == s[i + 1..i + 1 + |pat|];
      }
    }
  }

  /** `replaceParam(path, [name, value])`: every `:name` becomes the value's text. */
  function ReplaceParam(path: string, param: (string, Primitive)): (r: string)
    ensures forall c :: c in r ==> c in path || c in PrimitiveText(param.1)
  {
    ReplaceAll(path, ":" + param.0, PrimitiveText(param.1))
  }

  /**
   * One placeholder: in a path made of a colon-free `a`, `:name`, and a `b`
   * in which `:name` does not occur, the placeholder becomes the value's text
   * and both sides are kept.
   */
  lemma ReplaceParamOnce(a: string, name: string, v: Primitive, b: string)
    requires ':' !in a
    requires forall i :: 0 <= i <= |b| ==> !OccursAt(b, ":" + name, i)
    ensures ReplaceParam(a + ":" + name + b, (name, v)) == a + PrimitiveText(v) + b
  {
    var pat := ":" + name;
    var s := a + pat + b;
    forall i | 0 <= i < |a|
      ensures !OccursAt(s, pat, i)
    {
      if i + |pat| <= |s| {
        assert a[i] in a;
        assert s[i..i + |pat|][0] == s[i] == a[i];
      }
    }
    assert a + ":" + name + b == s;
    ReplaceAllSplit(a, pat, PrimitiveText(v), b);
    ReplaceAllWithoutOccurrence(b, pat, PrimitiveText(v));
  }

  /** The texts of all the parameter values, in entries order. */
  function ValuesText(params: seq<(string, Primitive)>): string
    decreases |params|
  {
    if params == [] then "" else ValuesText(params[..|params| - 1]) + PrimitiveText(params[|params| - 1].1)
  }

  /**
   * `Object.entries(params).reduce(replaceParam, path)`: a left fold over the
   * entries. No character is invented: each comes from the template or from
   * a parameter's value.
   */
  function ReplaceParams(path: string, params: seq<(string, Primitive)>): (r: string)
    ensures params == [] ==> r == path
    ensures forall c :: c in r ==> c in path || c in ValuesText(params)
    decreases |params|
  {
    if params == [] then path
    else ReplaceParam(ReplaceParams(path, params[..|params| - 1]), params[|params| - 1])
  }

  /** The first entry is applied first: the fold can be read from the front. */
  lemma {:induction false} ReplaceParamsFront(path: string, p: (string, Primitive), params: seq<(string, Primitive)>)
    ensures ReplaceParams(path, [p] + params) == ReplaceParams(ReplaceParam(path, p), params)
    decreases |params|
  {
    var all := [p] + params;
    if params != [] {
      var init, last := params[..|params| - 1], params[|params| - 1];
      assert all[..|all| - 1] == [p] + init && all[|all| - 1] == last;
      assert ReplaceParams(path, all) == ReplaceParam(ReplaceParams(path, [p] + init), last);
      ReplaceParamsFront(path, p, init);
      assert ReplaceParams(ReplaceParam(path, p), params) ==
        ReplaceParam(ReplaceParams(ReplaceParam(path, p), init), last);
    } else {
      assert all[..0] == [];
    }
  }

  /** A path without any colon holds no placeholder: no parameter changes it. */
  lemma {:induction false} ColonFreePathUnchanged(path: string, params: seq<(string, Primitive)>)
    ensures (forall i :: 0 <= i < |path| ==> path[i] != ':') ==> ReplaceParams(path, params) == path
    decreases |params|
  {
    if params != [] && forall i :: 0 <= i < |path| ==> path[i] != ':' {
      ColonFreePathUnchanged(path, params[..|params| - 1]);
      var last := params[|params| - 1];
      NoPlaceholderInColonFree(path, last.0);
      ReplaceAllWithoutOccurrence(path, ":" + last.0, PrimitiveText(last.1));
    }
  }

  /** A colon-free string holds no `:name`. */
  lemma NoPlaceholderInColonFree(s: string, name: string)
    requires forall i :: 0 <= i < |s| ==> s[i] != ':'
    ensures forall i :: 0 <= i <= |s| ==> !OccursAt(s, ":" + name, i)
  {
    var pat := ":" + name;
    forall i | 0 <= i <= |s|
      ensures !OccursAt(s, pat, i)
    {
      if i + |pat| <= |s| {
        assert s[i..i + |pat|][0] == s[i];
      }
    }
  }

  /** `toPath(path, baseUrl, params)` as written: the base URL, a slash, the replaced path. */
  function ToPath(path: string, baseUrl: string, params: seq<(string, Primitive)>): (r: string)
    ensures |r| > |baseUrl| && r[..|baseUrl|] == baseUrl && r[|baseUrl|] == '/'
    ensures (forall i :: 0 <= i < |path| ==> path[i] != ':') ==> r == baseUrl + "/" + path
  {
    ColonFreePathUnchanged(path, params);
    baseUrl + "/" + ReplaceParams(path, params)
  }

  /**
   * An endpoint with one placeholder and its one parameter: the request path
   * is the base URL, a slash, and the endpoint path with `:name` replaced by
   * the value's text.
   */
  lemma ToPathOneParam(a: string, name: string, v: Primitive, b: string, baseUrl: string)
    requires ':' !in a
    requires forall i :: 0 <= i <= |b| ==> !OccursAt(b, ":" + name, i)
    ensures ToPath(a + ":" + name + b, baseUrl, [(name, v)]) == baseUrl + "/" + a + PrimitiveText(v) + b
  {
    ReplaceParamsSingle(a + ":" + name + b, (name, v));
    ReplaceParamOnce(a, name, v, b);
  }

  /** A single entry is folded in by one `replaceParam`. */
  lemma ReplaceParamsSingle(path: string, p: (string, Primitive))
    ensures ReplaceParams(path, [p]) == ReplaceParam(path, p)
  {
    assert [p][..0] == [];
  }

  /**
   * The blog endpoint `/blogs/:id` with `id` 42, given as a string or as a
   * number: as written the request path is `//blogs/42`, and joined with a
   * single slash it is `/blogs/42`.
   */
  lemma ToPathBlogsId()
    ensures ToPath("/blogs/:id", "", [("id", Str("42"))]) == "//blogs/42"
    ensures ToPath("/blogs/:id", "", [("id", Num(42))]) == "//blogs/42"
    ensures ToPathJoined("/blogs/:id", "", [("id", Num(42))]) == "/blogs/42"
  {
    BlogsIdWith(Str("42"));
    assert 42 / 10 == 4 && 42 % 10 == 2;
    assert NatText(42) == NatText(4) + "2";
    assert PrimitiveText(Num(42)) == "42";
    BlogsIdWith(Num(42));
    BlogsIdJoined(Num(42));
  }

  /** `/blogs/:id` for any `id` value whose text is `42`, as written. */
  lemma BlogsIdWith(v: Primitive)
    requires PrimitiveText(v) == "42"
    ensures ToPath("/blogs/:id", "", [("id", v)]) == "//blogs/42"
  {
    BlogsIdReplaced(v);
    assert "" + "/" == "/";
    assert "/" + "/blogs/42" == "//blogs/42";
  }

  /** `/blogs/:id` for any `id` value whose text is `42`, joined with one slash. */
  lemma BlogsIdJoined(v: Primitive)
    requires PrimitiveText(v) == "42"
    ensures ToPathJoined("/blogs/:id", "", [("id", v)]) == "/blogs/42"
  {
    BlogsIdReplaced(v);
    assert DropLeadingSlash("/blogs/42") == "blogs/42";
    assert "" + "/" + "blogs/42" == "/blogs/42";
  }

  /** The placeholder of `/blogs/:id` replaced by a value whose text is `42`. */
  lemma BlogsIdReplaced(v: Primitive)
    requires PrimitiveText(v) == "42"
    ensures ReplaceParams("/blogs/:id", [("id", v)]) == "/blogs/42"
  {
    assert "/blogs/" + ":" + "id" + "" == "/blogs/:id";
    ReplaceParamsSingle("/blogs/:id", ("id", v));
    ReplaceParamOnce("/blogs/", "id", v, "");
    assert "/blogs/" + "42" + "" == "/blogs/42";
  }

  /**
   * With the endpoint paths the client is declared with, which start with a
   * slash, the written `toPath` doubles it: `/blogs` under the default empty
   * base URL becomes `//blogs` where `/blogs` is expected.
   */
  lemma ToPathDoublesSlash()
    ensures ToPath("/blogs", "", []) == "//blogs"
    ensures ToPath("/blogs", "", []) != "/blogs"
  {
  }

  function DropLeadingSlash(p: string): (r: string)
    ensures p != [] && p[0] == '/' ==> r == p[1..]
    ensures (p == [] || p[0] != '/') ==> r == p
  {
    if p != [] && p[0] == '/' then p[1..] else p
  }

  /** `toPath` joining the base URL and the replaced path with exactly one slash. */
  function ToPathJoined(path: string, baseUrl: string, params: seq<(string, Primitive)>): string {
    baseUrl + "/" + DropLeadingSlash(ReplaceParams(path, params))
  }

  /**
   * The joined path: the base URL, then one slash, then the replaced path
   * without its own leading slash; a path without one is joined as before,
   * and `/blogs` under the empty base URL is `/blogs`.
   */
  lemma ToPathJoinedSingleSlash(path: string, baseUrl: string, params: seq<(string, Primitive)>)
    ensures var p := ReplaceParams(path, params);
      && (p != [] && p[0] == '/' ==> ToPathJoined(path, baseUrl, params) == baseUrl + p)
      && ((p == [] || p[0] != '/') ==> ToPathJoined(path, baseUrl, params) == ToPath(path, baseUrl, params))
    ensures ToPathJoined("/blogs", "", []) == "/blogs"
  {
    var p := ReplaceParams(path, params);
    if p != [] && p[0] == '/' {
      assert "/" + p[1..] == p;
    }
  }
}
