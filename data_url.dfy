/**
 * `imgBase64ToDataUrl`: white space is removed from the argument, the rest
 * must be one or more ASCII letters or digits followed by at most two `=`
 * (the regular expression `^[a-z0-9]+={0,2}$` with the `i` flag), and the
 * result is that payload behind the PNG data-URL prefix. A rejected
 * argument raises a `TypeError`, modelled as a `Failure` carrying its
 * message.
 */
module DataUrl {
  import opened JsText

  datatype Result<T> = Success(value: T) | Failure(error: string)

  /** The argument as JavaScript sees it: only its `typeof` being `'string'` matters. */
  datatype JsValue = JsString(text: string) | NonString

  const DataUrlPrefix := "data:image/png;base64,"
  const NotStringMessage := "argument should be a string"
  const InvalidBase64Message := "argument should be a valid base64 string"

  /** `[a-z0-9]` under the `i` flag: the ASCII letters of either case and the ASCII digits. */
  predicate IsAsciiAlnum(c: char)
  {
    ('a' <= c <= 'z') || ('A' <= c <= 'Z') || ('0' <= c <= '9')
  }

  /** The number of `=` at the end of `s`. */
  function TrailingPadding(s: string): (n: nat)
    ensures n <= |s|
  {
    if s != [] && s[|s| - 1] == '=' then TrailingPadding(s[..|s| - 1]) + 1 else 0
  }

  /** The test of `imgBase64ToDataUrl` (src/common/helpers.js:35): a non-empty alphanumeric body, then zero to two `=`. */
  predicate IsPayload(s: string)
  {
    var pad := TrailingPadding(s);
    pad <= 2 && |s| - pad >= 1 && forall i :: 0 <= i < |s| - pad ==> IsAsciiAlnum(s[i])
  }

  /** `s` is `[a-z0-9]+` followed by exactly `k` times `=`. */
  ghost predicate SplitsAt(s: string, k: nat)
  {
    && k < |s|
    && (forall i :: 0 <= i < |s| - k ==> IsAsciiAlnum(s[i]))
    && (forall i :: |s| - k <= i < |s| ==> s[i] == '=')
  }

  /** The regular expression read literally: some split of `s` into `[a-z0-9]+` and `={0,2}`. */
  ghost predicate MatchesPattern(s: string)
  {
    exists k: nat :: k <= 2 && SplitsAt(s, k)
  }

  lemma {:induction false} TrailingPaddingShape(s: string)
    ensures forall i :: |s| - TrailingPadding(s) <= i < |s| ==> s[i] == '='
    ensures TrailingPadding(s) < |s| ==> s[|s| - TrailingPadding(s) - 1] != '='
  {
    if s != [] && s[|s| - 1] == '=' {
      var s' := s[..|s| - 1];
      TrailingPaddingShape(s');
      forall i | |s| - TrailingPadding(s) <= i < |s|
        ensures s[i] == '='
      {
        if i < |s| - 1 {
          assert s[i] == s'[i];
        }
      }
    }
  }

  /** A split with `k` trailing `=` has exactly `k` as its padding, since letters and digits are not `=`. */
  lemma {:induction false} SplitPadding(s: string, k: nat)
    requires SplitsAt(s, k)
    ensures TrailingPadding(s) == k
  {
    if k > 0 {
      var s' := s[..|s| - 1];
      assert SplitsAt(s', k - 1) by {
        forall i | 0 <= i < |s'| - (k - 1)
          ensures IsAsciiAlnum(s'[i])
        {
          assert s'[i] == s[i];
        }
      }
      SplitPadding(s', k - 1);
    }
  }

  /** The test of src/common/helpers.js:35 accepts exactly the strings the regular expression matches. */
  lemma IsPayloadIffPattern(s: string)
    ensures IsPayload(s) <==> MatchesPattern(s)
  {
    if IsPayload(s) {
      TrailingPaddingShape(s);
      assert SplitsAt(s, TrailingPadding(s));
    }
    if MatchesPattern(s) {
      var k: nat :| k <= 2 && SplitsAt(s, k);
      SplitPadding(s, k);
    }
  }

  /** `imgBase64ToDataUrl` once the argument is known to be a string. */
  function StringToDataUrl(base64String: string): Result<string>
  {
    var stripped := StripWhiteSpace(base64String);
    if !IsPayload(stripped) then Failure(InvalidBase64Message)
    else Success(DataUrlPrefix + stripped)
  }

  /** `imgBase64ToDataUrl`: the type test first, then the payload test. */
  function ImgBase64ToDataUrl(base64String: JsValue): (r: Result<string>)
    ensures base64String.NonString? ==> r == Failure(NotStringMessage)
  {
    match base64String
    case NonString => Failure(NotStringMessage)
    case JsString(text) => StringToDataUrl(text)
  }

  /**
   * A string argument succeeds exactly when it matches the pattern once its
   * white space is removed; the URL is then the prefix followed by that
   * stripped argument, and otherwise the error is the invalid-base64 message.
   */
  lemma DataUrlContract(base64String: string)
    ensures var r, stripped := ImgBase64ToDataUrl(JsString(base64String)), StripWhiteSpace(base64String);
      && (r.Success? <==> MatchesPattern(stripped))
      && (r.Success? ==> r.value == DataUrlPrefix + stripped && |r.value| == |DataUrlPrefix| + |stripped|)
      && (r.Failure? ==> r.error == InvalidBase64Message)
  {
    IsPayloadIffPattern(StripWhiteSpace(base64String));
  }

  /** Feeding the payload of an accepted URL back in gives the same URL. */
  lemma DataUrlRoundTrip(base64String: string)
    requires ImgBase64ToDataUrl(JsString(base64String)).Success?
    ensures var url := ImgBase64ToDataUrl(JsString(base64String)).value;
      |url| >= |DataUrlPrefix| && ImgBase64ToDataUrl(JsString(url[|DataUrlPrefix|..])) == Success(url)
  {
    var stripped := StripWhiteSpace(base64String);
    var url := DataUrlPrefix + stripped;
    assert url[|DataUrlPrefix|..] == stripped;
    StripIdempotent(base64String);
  }

  /** White space inserted anywhere does not change the outcome. */
  lemma WhiteSpaceIgnored(a: string, c: char, b: string)
    requires IsWhiteSpace(c)
    ensures ImgBase64ToDataUrl(JsString(a + [c] + b)) == ImgBase64ToDataUrl(JsString(a + b))
  {
    StripConcat(a + [c], b);
    StripAppendSpace(a, c);
    StripConcat(a, b);
  }

  /**
   * A stripped argument containing any character outside the pattern's
   * alphabet is rejected, whether or not it is part of the base64 alphabet
   * of section 4 of RFC 4648 ('+' and '/').
   */
  lemma ForeignCharacterRejected(base64String: string, i: nat)
    requires var s := StripWhiteSpace(base64String); i < |s| && !IsAsciiAlnum(s[i]) && s[i] != '='
    ensures ImgBase64ToDataUrl(JsString(base64String)) == Failure(InvalidBase64Message)
  {
    var s := StripWhiteSpace(base64String);
    TrailingPaddingShape(s);
  }

  /** An argument without white space is judged as it stands. */
  lemma CleanVerdict(s: string)
    requires NoWhiteSpace(s)
    ensures StringToDataUrl(s) == if IsPayload(s) then Success(DataUrlPrefix + s) else Failure(InvalidBase64Message)
  {
    StripClean(s);
  }

  /** Three runs without white space, each followed by one white-space character, strip to the runs joined. */
  lemma StripRuns(a: string, x: char, b: string, y: char, c: string, z: char)
    requires NoWhiteSpace(a) && NoWhiteSpace(b) && NoWhiteSpace(c)
    requires IsWhiteSpace(x) && IsWhiteSpace(y) && IsWhiteSpace(z)
    ensures StripWhiteSpace(a + [x] + b + [y] + c + [z]) == a + b + c
  {
    StripClean(a);
    StripAppendSpace(a, x);
    StripAppendClean(a + [x], b);
    StripAppendSpace(a + [x] + b, y);
    StripAppendClean(a + [x] + b + [y], c);
    StripAppendSpace(a + [x] + b + [y] + c, z);
  }

  lemma SpacedArgumentStrips(s: string)
    requires s == "lorem ipsum\n123456\t"
    ensures StripWhiteSpace(s) == "loremipsum123456"
  {
    var a, b, c := "lorem", "ipsum", "123456";
    assert s == a + [' '] + b + ['\n'] + c + ['\t'];
    assert a + b + c == "loremipsum123456";
    assert NoWhiteSpace(a) && NoWhiteSpace(b) && NoWhiteSpace(c) by {
    }
    StripRuns(a, ' ', b, '\n', c, '\t');
  }

  lemma PlainPayload()
    ensures NoWhiteSpace("loremipsum123456") && IsPayload("loremipsum123456")
  {
    assert TrailingPadding("loremipsum123456") == 0;
  }

  lemma PaddedPayloads()
    ensures NoWhiteSpace("abcd=") && IsPayload("abcd=")
    ensures NoWhiteSpace("abcd==") && IsPayload("abcd==")
    ensures NoWhiteSpace("abcd===") && !IsPayload("abcd===")
  {
    assert TrailingPadding("abcd") == 0;
    assert "abcd=" == "abcd" + "=" && "abcd==" == "abcd=" + "=" && "abcd===" == "abcd==" + "=";
  }

  lemma MalformedPayloads()
    ensures NoWhiteSpace("") && !IsPayload("")
    ensures NoWhiteSpace("not.a;base64") && !IsPayload("not.a;base64")
    ensures NoWhiteSpace("-_+") && !IsPayload("-_+")
  {
    assert TrailingPadding("not.a;base64") == 0 && !IsAsciiAlnum("not.a;base64"[3]);
    assert TrailingPadding("-_+") == 0 && !IsAsciiAlnum("-_+"[0]);
  }

  lemma MisplacedPayloads()
    ensures NoWhiteSpace("\U{00E7}\U{00C1}\U{00EB}\U{1EF3}") && !IsPayload("\U{00E7}\U{00C1}\U{00EB}\U{1EF3}")
    ensures NoWhiteSpace("=abcd") && !IsPayload("=abcd")
    ensures NoWhiteSpace("ab=cd") && !IsPayload("ab=cd")
  {
    assert TrailingPadding("\U{00E7}\U{00C1}\U{00EB}\U{1EF3}") == 0 && !IsAsciiAlnum("\U{00E7}\U{00C1}\U{00EB}\U{1EF3}"[0]);
    assert TrailingPadding("=abcd") == 0 && !IsAsciiAlnum("=abcd"[0]);
    assert TrailingPadding("ab=cd") == 0 && !IsAsciiAlnum("ab=cd"[2]);
  }

  /** The arguments the module's tests accept, with the URLs they produce. */
  lemma AcceptedExamples()
    ensures ImgBase64ToDataUrl(JsString("loremipsum123456")) == Success(DataUrlPrefix + "loremipsum123456")
    ensures ImgBase64ToDataUrl(JsString("lorem ipsum\n123456\t")) == Success(DataUrlPrefix + "loremipsum123456")
    ensures ImgBase64ToDataUrl(JsString("abcd=")) == Success(DataUrlPrefix + "abcd=")
    ensures ImgBase64ToDataUrl(JsString("abcd==")) == Success(DataUrlPrefix + "abcd==")
  {
    PlainPayload();
    PaddedPayloads();
    SpacedArgumentStrips("lorem ipsum\n123456\t");
    CleanVerdict("loremipsum123456");
    CleanVerdict("abcd=");
    CleanVerdict("abcd==");
  }

  /** The arguments the module's tests reject, with the message they raise. */
  lemma RejectedExamples()
    ensures ImgBase64ToDataUrl(JsString("abcd===")) == Failure(InvalidBase64Message)
    ensures ImgBase64ToDataUrl(JsString("")) == Failure(InvalidBase64Message)
    ensures ImgBase64ToDataUrl(JsString("not.a;base64")) == Failure(InvalidBase64Message)
    ensures ImgBase64ToDataUrl(JsString("\U{00E7}\U{00C1}\U{00EB}\U{1EF3}")) == Failure(InvalidBase64Message)
    ensures ImgBase64ToDataUrl(JsString("-_+")) == Failure(InvalidBase64Message)
    ensures ImgBase64ToDataUrl(JsString("=abcd")) == Failure(InvalidBase64Message)
    ensures ImgBase64ToDataUrl(JsString("ab=cd")) == Failure(InvalidBase64Message)
    ensures ImgBase64ToDataUrl(NonString) == Failure(NotStringMessage)
  {
    PaddedPayloads();
    MalformedPayloads();
    MisplacedPayloads();
    CleanVerdict("abcd===");
    CleanVerdict("");
    CleanVerdict("not.a;base64");
    CleanVerdict("\U{00E7}\U{00C1}\U{00EB}\U{1EF3}");
    CleanVerdict("-_+");
    CleanVerdict("=abcd");
    CleanVerdict("ab=cd");
  }
}
