/**
 * `ResolutionContext`: the immutable stack of `(key, scope)` frames that are
 * being resolved. Pushing a frame checks for a cycle first, then for a root
 * frame that would come to depend on a request frame; the callback then runs
 * with the longer stack as the ambient one, which is passed explicitly here.
 */
module Resolution {
  import opened Common

  datatype Frame = Frame(key: Key, scope: Scope)

  /** The frames in push order; the innermost frame is the last. */
  type Stack = seq<Frame>

  /** `ResolutionContext.empty()`. */
  function Empty(): (s: Stack)
    ensures |s| == 0
    ensures Reached(s) && Peek(s).None?
  {
    []
  }

  /** `peek()`: the key of the innermost frame, undefined on the empty stack. */
  function Peek(s: Stack): (r: Option<Key>)
    ensures r.None? <==> s == []
    ensures r.Some? ==> r.value == s[|s| - 1].key
  {
    if s == [] then None else Some(s[|s| - 1].key)
  }

  /** `parts.join(sep)`. */
  function Join(parts: seq<string>, sep: string): string
    decreases |parts|
  {
    if parts == [] then ""
    else if |parts| == 1 then parts[0]
    else parts[0] + sep + Join(parts[1..], sep)
  }

  function Descriptions(s: Stack): (r: seq<string>)
    ensures |r| == |s|
    ensures forall i :: 0 <= i < |s| ==> r[i] == JoinText(s[i].key)
  {
    if s == [] then [] else Descriptions(s[..|s| - 1]) + [JoinText(s[|s| - 1].key)]
  }

  /** `toString()`: the key descriptions joined with "->" in push order. */
  function Describe(s: Stack): (r: string)
    ensures s == [] ==> r == ""
    ensures |s| == 1 ==> r == JoinText(s[0].key)
  {
    Join(Descriptions(s), "->")
  }

  /** Appending one part to a join adds the separator and the part. */
  lemma {:induction false} JoinSnoc(parts: seq<string>, p: string, sep: string)
    requires parts != []
    ensures Join(parts + [p], sep) == Join(parts, sep) + sep + p
    decreases |parts|
  {
    if |parts| == 1 {
      assert parts + [p] == [parts[0], p];
      assert (parts + [p])[1..] == [p];
    } else {
      assert (parts + [p])[1..] == parts[1..] + [p];
      JoinSnoc(parts[1..], p, sep);
    }
  }

  /** Pushing a frame extends the description by "->" and the new key's description. */
  lemma DescribePush(s: Stack, f: Frame)
    ensures s == [] ==> Describe(s + [f]) == JoinText(f.key)
    ensures s != [] ==> Describe(s + [f]) == Describe(s) + "->" + JoinText(f.key)
  {
    assert (s + [f])[..|s|] == s;
    assert Descriptions(s + [f]) == Descriptions(s) + [JoinText(f.key)];
    if s != [] {
      JoinSnoc(Descriptions(s), JoinText(f.key), "->");
    }
  }

  predicate OnStack(s: Stack, k: Key) {
    exists i :: 0 <= i < |s| && s[i].key == k
  }

  predicate HasRootFrame(s: Stack) {
    exists i :: 0 <= i < |s| && s[i].scope == Root
  }

  /** `assertNoDependencyCycle`: the new key must not be on the stack already, whatever its scope. */
  function CheckNoCycle(s: Stack, f: Frame): (r: Result<()>)
    ensures r.Ok? <==> !OnStack(s, f.key)
    ensures r.Err? ==> r.error == Raised("circular dependency detected: " + Describe(s) + "->" + TemplateText(f.key))
  {
    if OnStack(s, f.key) then
      Err(Raised("circular dependency detected: " + Describe(s) + "->" + TemplateText(f.key)))
    else Ok(())
  }

  /** `assertNoInvalidScope`: a request frame may not go above any root frame. */
  function CheckScope(s: Stack, f: Frame): (r: Result<()>)
    ensures r.Ok? <==> !(f.scope == Request && HasRootFrame(s))
    ensures r.Err? ==> r.error == Raised("root scope cannot depend on request scope: " + Describe(s) + "->" + TemplateText(f.key))
  {
    if f.scope == Request && HasRootFrame(s) then
      Err(Raised("root scope cannot depend on request scope: " + Describe(s) + "->" + TemplateText(f.key)))
    else Ok(())
  }

  /**
   * The checks of `run` and the stack its callback sees: the cycle check
   * first, then the scope check, then the old stack plus the new frame. The
   * receiver is never changed: the stack is a value.
   */
  function Push(s: Stack, f: Frame): (r: Result<Stack>)
    ensures r.Ok? <==> CheckNoCycle(s, f).Ok? && CheckScope(s, f).Ok?
    ensures r.Ok? ==> r.value == s + [f] && Peek(r.value) == Some(f.key)
    ensures CheckNoCycle(s, f).Err? ==> r == Err(CheckNoCycle(s, f).error)
    ensures CheckNoCycle(s, f).Ok? && CheckScope(s, f).Err? ==> r == Err(CheckScope(s, f).error)
  {
    match CheckNoCycle(s, f)
    case Err(e) => Err(e)
    case Ok(_) =>
      match CheckScope(s, f)
      case Err(e) => Err(e)
      case Ok(_) => Ok(s + [f])
  }

  /**
   * `run(element, callback)`: the callback's own outcome, returned or thrown
   * unchanged, computed with the longer stack as the ambient one.
   */
  function Run<T>(s: Stack, f: Frame, callback: Stack -> Result<T>): (r: Result<T>)
    ensures Push(s, f).Err? ==> r == Err(Push(s, f).error)
    ensures Push(s, f).Ok? ==> r == callback(s + [f])
  {
    match Push(s, f)
    case Err(e) => Err(e)
    case Ok(next) => callback(next)
  }

  /** No key occurs twice. */
  predicate Acyclic(s: Stack) {
    forall i, j :: 0 <= i < j < |s| ==> s[i].key != s[j].key
  }

  /** Once a root frame is on the stack, every frame above it is a root frame too. */
  predicate ScopesOrdered(s: Stack) {
    forall i, j :: 0 <= i < j < |s| && s[i].scope == Root ==> s[j].scope == Root
  }

  /** The stacks `run` can build from the empty one. */
  predicate Reached(s: Stack) {
    Acyclic(s) && ScopesOrdered(s)
  }

  /** Every push that succeeds keeps a stack free of cycles and of root-to-request edges. */
  lemma PushPreservesReached(s: Stack, f: Frame)
    requires Reached(s)
    requires Push(s, f).Ok?
    ensures Reached(Push(s, f).value)
  {
    var t := s + [f];
    forall i, j | 0 <= i < j < |t|
      ensures t[i].key != t[j].key
    {
      if j == |s| {
        assert s[i].key != f.key;
      }
    }
    forall i, j | 0 <= i < j < |t| && t[i].scope == Root
      ensures t[j].scope == Root
    {
      if j == |s| && f.scope == Request {
        assert HasRootFrame(s) by { assert s[i].scope == Root; }
      }
    }
  }

  /** Request on request, root on root and root on request are allowed pushes of a fresh key. */
  lemma AllowedPushes(s: Stack, f: Frame)
    requires !OnStack(s, f.key)
    requires f.scope == Root || forall i :: 0 <= i < |s| ==> s[i].scope == Request
    ensures Push(s, f) == Ok(s + [f])
  {
  }

  /** A cycle is reported even when the scope check would also fail. */
  lemma CycleReportedFirst(s: Stack, f: Frame)
    requires OnStack(s, f.key)
    ensures Push(s, f).Err?
    ensures Push(s, f).error == Raised("circular dependency detected: " + Describe(s) + "->" + TemplateText(f.key))
  {
  }
}
