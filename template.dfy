/** The placeholder renderer (`processTemplate`), restricted to the
    interpolation form `<%= key %>`: each such placeholder is replaced by
    the value of `key` in the context; all other text is copied. */
module Template {
  import opened Paths
  import opened Outcomes

  /** The flat key/value data a template is rendered against. */
  type Context = map<string, string>

  /** `<%=` starts at index `i` of `s`. */
  predicate OpensAt(s: string, i: nat)
  {
    i + 3 <= |s| && s[i] == '<' && s[i + 1] == '%' && s[i + 2] == '='
  }

  /** `%>` starts at index `j` of `s`. */
  predicate ClosesAt(s: string, j: nat)
  {
    j + 2 <= |s| && s[j] == '%' && s[j + 1] == '>'
  }

  /** The first `%>` at or after `from`. */
  function FindClose(s: string, from: nat): (r: Option<nat>)
    decreases |s| - from
    ensures r.Some? ==> from <= r.value && ClosesAt(s, r.value)
    ensures r.Some? ==> forall m :: from <= m < r.value ==> !ClosesAt(s, m)
    ensures r.None? ==> forall m :: from <= m ==> !ClosesAt(s, m)
  {
    if |s| < from + 2 then None
    else if ClosesAt(s, from) then Some(from)
    else FindClose(s, from + 1)
  }

  /** White space and line terminators as ECMAScript skips them between
      tokens (ECMA-262, sections 12.2 and 12.3): the compiled template
      evaluates the placeholder's inside as a JavaScript expression. */
  predicate IsSpace(c: char)
  {
    c == '\t' || c == '\U{000B}' || c == '\U{000C}' || c == ' ' || c == '\U{00A0}' || c == '\U{FEFF}' ||
    c == '\U{1680}' || ('\U{2000}' <= c <= '\U{200A}') || c == '\U{202F}' || c == '\U{205F}' || c == '\U{3000}' ||
    c == '\n' || c == '\r' || c == '\U{2028}' || c == '\U{2029}'
  }

  /** `s` without its leading and trailing white space. */
  function Trim(s: string): (r: string)
    decreases |s|
    ensures |r| <= |s|
    ensures r != [] ==> !IsSpace(r[0]) && !IsSpace(r[|r| - 1])
    ensures (forall i :: 0 <= i < |s| ==> !IsSpace(s[i])) ==> r == s
  {
    if s == [] then s
    else if IsSpace(s[0]) then Trim(s[1..])
    else if IsSpace(s[|s| - 1]) then Trim(s[..|s| - 1])
    else s
  }

  /** `Trim` removes only white space, and only at the two ends: the result
      is the slice `s[lo..hi]`, and everything outside it is white space. */
  lemma {:induction false} TrimIsInfix(s: string) returns (lo: nat, hi: nat)
    ensures lo <= hi <= |s| && Trim(s) == s[lo..hi]
    ensures forall i :: 0 <= i < lo ==> IsSpace(s[i])
    ensures forall i :: hi <= i < |s| ==> IsSpace(s[i])
    decreases |s|
  {
    if s == [] || (!IsSpace(s[0]) && !IsSpace(s[|s| - 1])) {
      lo, hi := 0, |s|;
    } else if IsSpace(s[0]) {
      var l, h := TrimIsInfix(s[1..]);
      lo, hi := l + 1, h + 1;
      assert s[1..][l..h] == s[lo..hi];
      assert forall i :: 1 <= i < |s| ==> s[i] == s[1..][i - 1];
    } else {
      var l, h := TrimIsInfix(s[..|s| - 1]);
      lo, hi := l, h;
      assert s[..|s| - 1][l..h] == s[lo..hi];
      assert forall i :: 0 <= i < |s| - 1 ==> s[i] == s[..|s| - 1][i];
    }
  }

  /** Put `pre` in front of a successful rendering; keep a failure. */
  function Prepend(pre: string, r: Result<string>): Result<string>
  {
    match r
    case Ok(v) => Ok(pre + v)
    case Err(e) => Err(e)
  }

  /** `template(s)(ctx)`: the placeholder's contents must be at least one
      character long, as in `<%=([\s\S]+?)%>`, so the closing `%>` is looked
      for from index 4. An opener without a closer leaves the rest literal;
      a key missing from the context fails the rendering. */
  function Render(s: string, ctx: Context): (r: Result<string>)
    decreases |s|
    ensures r.Err? ==> r.error.RenderError? && r.error.key !in ctx
    ensures IsPlain(s) ==> r == Ok(s)
  {
    if s == [] then Ok([])
    else if OpensAt(s, 0) then
      match FindClose(s, 4)
      case None => Ok(s)
      case Some(j) =>
        var key := Trim(s[3..j]);
        if key in ctx then Prepend(ctx[key], Render(s[j + 2..], ctx))
        else Err(RenderError(key))
    else
      assert IsPlain(s) ==> IsPlain(s[1..]) by {
        if IsPlain(s) {
          forall i | 0 <= i < |s[1..]| ensures !OpensAt(s[1..], i) {
            assert !OpensAt(s, i + 1);
          }
        }
      }
      assert [s[0]] + s[1..] == s;
      Prepend([s[0]], Render(s[1..], ctx))
  }

  // ---------------------------------------------------------------------
  // A reference definition: templates as sequences of pieces.

  datatype Piece = Lit(text: string) | Hole(key: string)

  /** A key as written in the templates: an identifier. */
  predicate IsKey(k: string)
  {
    |k| > 0 &&
    forall i :: 0 <= i < |k| ==>
      ('a' <= k[i] <= 'z') || ('A' <= k[i] <= 'Z') || ('0' <= k[i] <= '9') || k[i] == '_' || k[i] == '$'
  }

  /** Literal text whose every `<` is followed by something other than `%`,
      so no placeholder can start inside it. */
  predicate IsSafeLiteral(l: string)
  {
    forall i :: 0 <= i < |l| && l[i] == '<' ==> i + 1 < |l| && l[i + 1] != '%'
  }

  predicate WellFormed(t: seq<Piece>)
  {
    forall i :: 0 <= i < |t| ==>
      match t[i]
      case Lit(l) => IsSafeLiteral(l)
      case Hole(k) => IsKey(k)
  }

  function HoleText(k: string): string
  {
    "<%= " + k + " %>"
  }

  /** The template text of a sequence of pieces. */
  function Print(t: seq<Piece>): string
  {
    if t == [] then ""
    else
      match t[0]
      case Lit(l) => l + Print(t[1..])
      case Hole(k) => HoleText(k) + Print(t[1..])
  }

  /** What rendering a template means: each hole replaced by its value,
      failing on the first hole whose key is not in the context. */
  function Expand(t: seq<Piece>, ctx: Context): Result<string>
  {
    if t == [] then Ok("")
    else
      match t[0]
      case Lit(l) => Prepend(l, Expand(t[1..], ctx))
      case Hole(k) => if k in ctx then Prepend(ctx[k], Expand(t[1..], ctx)) else Err(RenderError(k))
  }

  lemma PrependAssoc(a: string, b: string, r: Result<string>)
    ensures Prepend(a, Prepend(b, r)) == Prepend(a + b, r)
  {
    match r
    case Ok(v) => assert a + (b + v) == (a + b) + v;
    case Err(_) =>
  }

  /** Safe literal text passes through rendering unchanged. */
  lemma {:induction false} RenderLiteral(l: string, rest: string, ctx: Context)
    requires IsSafeLiteral(l)
    ensures Render(l + rest, ctx) == Prepend(l, Render(rest, ctx))
    decreases |l|
  {
    if l == [] {
      assert l + rest == rest;
      match Render(rest, ctx)
      case Ok(v) => assert l + v == v;
      case Err(_) =>
    } else {
      var s := l + rest;
      assert !OpensAt(s, 0);
      assert s[1..] == l[1..] + rest;
      assert IsSafeLiteral(l[1..]) by {
        forall i | 0 <= i < |l[1..]| && l[1..][i] == '<'
          ensures i + 1 < |l[1..]| && l[1..][i + 1] != '%'
        {
          assert l[i + 1] == '<';
        }
      }
      RenderLiteral(l[1..], rest, ctx);
      PrependAssoc([l[0]], l[1..], Render(rest, ctx));
      assert [l[0]] + l[1..] == l;
    }
  }

  lemma TrimPadded(k: string)
    requires IsKey(k)
    ensures Trim(" " + k + " ") == k
  {
  }

  /** A placeholder for key `k` renders to the value of `k`. */
  lemma RenderHole(k: string, rest: string, ctx: Context)
    requires IsKey(k)
    ensures Render(HoleText(k) + rest, ctx) ==
            if k in ctx then Prepend(ctx[k], Render(rest, ctx)) else Err(RenderError(k))
  {
    var s := HoleText(k) + rest;
    var j := 5 + |k|;
    assert OpensAt(s, 0);
    assert ClosesAt(s, j);
    forall m | 4 <= m < j ensures !ClosesAt(s, m) {
      if m < 4 + |k| {
        assert s[m] == k[m - 4];
      } else {
        assert s[m] == ' ';
      }
    }
    assert FindClose(s, 4) == Some(j);
    assert s[3..j] == " " + k + " ";
    TrimPadded(k);
    assert s[j + 2..] == rest;
  }

  /** A template made of one placeholder renders to that key's value. */
  lemma HoleAlone(k: string, ctx: Context)
    requires IsKey(k) && k in ctx
    ensures Render(HoleText(k), ctx) == Ok(ctx[k])
  {
    RenderHole(k, "", ctx);
    assert HoleText(k) + "" == HoleText(k);
    assert ctx[k] + "" == ctx[k];
  }

  /** Rendering the text of a well-formed template is its expansion. */
  lemma {:induction false} RenderPrint(t: seq<Piece>, ctx: Context)
    requires WellFormed(t)
    ensures Render(Print(t), ctx) == Expand(t, ctx)
  {
    if t != [] {
      assert WellFormed(t[1..]) by {
        forall i | 0 <= i < |t[1..]| ensures t[1..][i] == t[i + 1] { }
      }
      RenderPrint(t[1..], ctx);
      match t[0]
      case Lit(l) =>
        assert IsSafeLiteral(l) by { assert t[0] == t[0]; }
        RenderLiteral(l, Print(t[1..]), ctx);
      case Hole(k) =>
        assert IsKey(k);
        RenderHole(k, Print(t[1..]), ctx);
    }
  }

  // ---------------------------------------------------------------------
  // Rendering a destination path.

  /** Text with no placeholder opener anywhere in it. */
  predicate IsPlain(s: string)
  {
    forall i :: 0 <= i < |s| ==> !OpensAt(s, i)
  }

  /** The destination path after its placeholders are rendered, segment by
      segment. */
  function RenderPath(p: Path, ctx: Context): (r: Result<Path>)
    ensures r.Ok? <==> forall i :: 0 <= i < |p| ==> Render(p[i], ctx).Ok?
    ensures r.Err? ==> r.error.RenderError? && r.error.key !in ctx
    ensures r.Ok? ==> |r.value| == |p| && forall i :: 0 <= i < |p| ==> Render(p[i], ctx) == Ok(r.value[i])
  {
    if p == [] then Ok([])
    else
      match Render(p[0], ctx)
      case Err(e) => Err(e)
      case Ok(seg) =>
        match RenderPath(p[1..], ctx)
        case Err(e) => Err(e)
        case Ok(tail) =>
          assert forall i :: 1 <= i < |p| ==> p[i] == p[1..][i - 1];
          Ok([seg] + tail)
  }

  /** A path renders to the segments its segments render to. */
  lemma RenderPathSegments(p: Path, ctx: Context, q: Path)
    requires |q| == |p| && forall i :: 0 <= i < |p| ==> Render(p[i], ctx) == Ok(q[i])
    ensures RenderPath(p, ctx) == Ok(q)
  {
    var r := RenderPath(p, ctx);
    assert r.Ok?;
    assert |r.value| == |q|;
    assert forall i :: 0 <= i < |p| ==> Ok(r.value[i]) == Render(p[i], ctx) == Ok(q[i]);
    assert r.value == q;
  }

  /** A path whose segments hold no placeholder is left as it is. */
  lemma {:induction false} RenderPathPlain(p: Path, ctx: Context)
    requires forall i :: 0 <= i < |p| ==> IsPlain(p[i])
    ensures RenderPath(p, ctx) == Ok(p)
  {
    if p != [] {
      RenderPathPlain(p[1..], ctx);
      assert [p[0]] + p[1..] == p;
    }
  }
}
