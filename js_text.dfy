/**
 * The two JavaScript string built-ins the engine relies on: the regular
 * expression class `\s` (used as `s.replace(/\s/g, '')`) and
 * `String.prototype.trim`. Both use the same character set: the
 * ECMAScript WhiteSpace and LineTerminator code points.
 */
module JsText {

  /** ECMAScript WhiteSpace or LineTerminator: what `\s` matches and `trim` removes. */
  predicate IsWhiteSpace(c: char)
  {
    || c == ' ' || c == '\t' || c == '\n' || c == '\r'
    || c == '\U{000B}' || c == '\U{000C}'
    || c == '\U{00A0}' || c == '\U{1680}'
    || ('\U{2000}' <= c <= '\U{200A}')
    || c == '\U{2028}' || c == '\U{2029}' || c == '\U{202F}' || c == '\U{205F}'
    || c == '\U{3000}' || c == '\U{FEFF}'
  }

  /** `s` contains no white-space character. */
  predicate NoWhiteSpace(s: string)
  {
    forall i :: 0 <= i < |s| ==> !IsWhiteSpace(s[i])
  }

  /** `s` consists of white space only. */
  predicate AllWhiteSpace(s: string)
  {
    forall i :: 0 <= i < |s| ==> IsWhiteSpace(s[i])
  }

  /** `s.replace(/\s/g, '')`: every white-space character removed, the others kept in order. */
  function StripWhiteSpace(s: string): (r: string)
    ensures |r| <= |s|
    ensures NoWhiteSpace(r)
  {
    if s == [] then []
    else if IsWhiteSpace(s[0]) then StripWhiteSpace(s[1..])
    else [s[0]] + StripWhiteSpace(s[1..])
  }

  /** Stripping distributes over concatenation, so it acts character by character. */
  lemma {:induction false} StripConcat(a: string, b: string)
    ensures StripWhiteSpace(a + b) == StripWhiteSpace(a) + StripWhiteSpace(b)
  {
    if a == [] {
      assert a + b == b;
    } else {
      assert (a + b)[0] == a[0] && (a + b)[1..] == a[1..] + b;
      StripConcat(a[1..], b);
    }
  }

  /** A string without white space is left as it is; in particular stripping is idempotent. */
  lemma {:induction false} StripClean(s: string)
    requires NoWhiteSpace(s)
    ensures StripWhiteSpace(s) == s
  {
    if s != [] {
      StripClean(s[1..]);
    }
  }

  lemma StripIdempotent(s: string)
    ensures StripWhiteSpace(StripWhiteSpace(s)) == StripWhiteSpace(s)
  {
    StripClean(StripWhiteSpace(s));
  }

  /** A white-space character appended to a string disappears when it is stripped. */
  lemma StripAppendSpace(s: string, c: char)
    requires IsWhiteSpace(c)
    ensures StripWhiteSpace(s + [c]) == StripWhiteSpace(s)
  {
    StripConcat(s, [c]);
    assert StripWhiteSpace([c]) == [] by {
      assert [c][1..] == [];
    }
  }

  /** A string without white space appended to another survives stripping unchanged. */
  lemma StripAppendClean(s: string, t: string)
    requires NoWhiteSpace(t)
    ensures StripWhiteSpace(s + t) == StripWhiteSpace(s) + t
  {
    StripConcat(s, t);
    StripClean(t);
  }

  /** Leading white space removed (the first half of `trim`). */
  function TrimStart(s: string): (r: string)
    ensures |r| <= |s|
  {
    if s != [] && IsWhiteSpace(s[0]) then TrimStart(s[1..]) else s
  }

  /** Trailing white space removed (the second half of `trim`). */
  function TrimEnd(s: string): (r: string)
    ensures |r| <= |s|
  {
    if s != [] && IsWhiteSpace(s[|s| - 1]) then TrimEnd(s[..|s| - 1]) else s
  }

  /** `String.prototype.trim`. */
  function Trim(s: string): string
  {
    TrimEnd(TrimStart(s))
  }

  /**
   * `TrimStart(s)` is the suffix of `s` after its leading white space: what
   * is dropped is all white space, and what is kept does not start with any.
   */
  lemma {:induction false} TrimStartShape(s: string)
    ensures var r := TrimStart(s);
      && r == s[|s| - |r|..]
      && (forall k :: 0 <= k < |s| - |r| ==> IsWhiteSpace(s[k]))
      && (r != [] ==> !IsWhiteSpace(r[0]))
  {
    if s != [] && IsWhiteSpace(s[0]) {
      TrimStartShape(s[1..]);
      var r := TrimStart(s);
      forall k | 0 <= k < |s| - |r|
        ensures IsWhiteSpace(s[k])
      {
        if k > 0 {
          assert s[k] == s[1..][k - 1];
        }
      }
    }
  }

  /**
   * `TrimEnd(s)` is the prefix of `s` before its trailing white space: what
   * is dropped is all white space, and what is kept does not end with any.
   */
  lemma {:induction false} TrimEndShape(s: string)
    ensures var r := TrimEnd(s);
      && r == s[..|r|]
      && (forall k :: |r| <= k < |s| ==> IsWhiteSpace(s[k]))
      && (r != [] ==> !IsWhiteSpace(r[|r| - 1]))
  {
    if s != [] && IsWhiteSpace(s[|s| - 1]) {
      var s' := s[..|s| - 1];
      TrimEndShape(s');
      var r := TrimEnd(s);
      assert s'[..|r|] == s[..|r|];
      forall k | |r| <= k < |s|
        ensures IsWhiteSpace(s[k])
      {
        if k < |s| - 1 {
          assert s[k] == s'[k];
        }
      }
    }
  }

  /**
   * `Trim(s)` is the infix `s[i..j]` of `s` with only white space outside it
   * and none at either of its ends.
   */
  lemma TrimShape(s: string)
    ensures var r, i := Trim(s), |s| - |TrimStart(s)|;
      && i + |r| <= |s|
      && r == s[i..i + |r|]
      && (forall k :: 0 <= k < i ==> IsWhiteSpace(s[k]))
      && (forall k :: i + |r| <= k < |s| ==> IsWhiteSpace(s[k]))
      && (r != [] ==> !IsWhiteSpace(r[0]) && !IsWhiteSpace(r[|r| - 1]))
  {
    var t := TrimStart(s);
    var i := |s| - |t|;
    TrimStartShape(s);
    TrimEndShape(t);
    var r := Trim(s);
    assert r == s[i..i + |r|] by {
      assert t == s[i..];
      assert t[..|r|] == s[i..i + |r|];
    }
    forall k | i + |r| <= k < |s|
      ensures IsWhiteSpace(s[k])
    {
      assert s[k] == t[k - i];
    }
  }

  /** A string that neither starts nor ends with white space is its own trim. */
  lemma TrimClean(s: string)
    requires s != [] ==> !IsWhiteSpace(s[0]) && !IsWhiteSpace(s[|s| - 1])
    ensures Trim(s) == s
  {
  }

  /** Leading white space in front of a string is invisible to `TrimStart`. */
  lemma {:induction false} TrimStartSkipsSpace(w: string, s: string)
    requires AllWhiteSpace(w)
    ensures TrimStart(w + s) == TrimStart(s)
  {
    if w != [] {
      assert (w + s)[1..] == w[1..] + s;
      TrimStartSkipsSpace(w[1..], s);
    } else {
      assert w + s == s;
    }
  }

  /** Trailing white space behind a string is invisible to `TrimEnd`. */
  lemma {:induction false} TrimEndSkipsSpace(s: string, w: string)
    requires AllWhiteSpace(w)
    ensures TrimEnd(s + w) == TrimEnd(s)
  {
    if w != [] {
      var w' := w[..|w| - 1];
      assert (s + w)[..|s + w| - 1] == s + w';
      TrimEndSkipsSpace(s, w');
    } else {
      assert s + w == s;
    }
  }

  /** `TrimStart` of a string followed by white space keeps that white space, unless nothing else is left. */
  lemma {:induction false} TrimStartBeforeSpace(s: string, w: string)
    requires AllWhiteSpace(w)
    ensures TrimStart(s + w) == if TrimStart(s) == [] then [] else TrimStart(s) + w
  {
    if s == [] {
      assert s + w == w + [];
      TrimStartSkipsSpace(w, []);
    } else if IsWhiteSpace(s[0]) {
      assert (s + w)[1..] == s[1..] + w;
      TrimStartBeforeSpace(s[1..], w);
    }
  }
}
