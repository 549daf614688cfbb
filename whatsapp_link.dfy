/**
 * `window.openWhatsAppWithDefault`: the WhatsApp number is trimmed, loses a
 * leading `+` and then every character that is not an ASCII digit; the
 * trimmed message is percent-encoded; the link carries the number only when
 * asked to and when a digit is left. A small query reader stands for the
 * receiving side, so that what the link carries can be stated.
 */
module WhatsAppLink {
  import opened Wrappers
  import opened JsString
  import opened UriComponent

  /** The class `\d` of a regular expression without the `u` flag. */
  predicate IsDigit(c: char) {
    '0' <= c <= '9'
  }

  predicate AllDigits(s: string) {
    forall i :: 0 <= i < |s| ==> IsDigit(s[i])
  }

  /** `a` can be obtained from `b` by deleting characters. */
  ghost predicate IsSubsequence(a: string, b: string)
    decreases |b|
  {
    a == [] || (b != [] && ((a[0] == b[0] && IsSubsequence(a[1..], b[1..])) || IsSubsequence(a, b[1..])))
  }

  /** `s.replace(/^\+/, '')`. */
  function StripLeadingPlus(s: string): string {
    if s != [] && s[0] == '+' then s[1..] else s
  }

  /** `s.replace(/\D/g, '')`. */
  function DeleteNonDigits(s: string): (r: string)
    ensures AllDigits(r)
  {
    if s == [] then []
    else
      var rest := DeleteNonDigits(s[1..]);
      if IsDigit(s[0]) then [s[0]] + rest else rest
  }

  /** What `replace(/\D/g, '')` keeps: exactly the digits of `s`, in their order, each as often as `s` holds it. */
  lemma {:induction false} DeleteNonDigitsSpec(s: string)
    ensures IsSubsequence(DeleteNonDigits(s), s)
    ensures forall c :: IsDigit(c) ==> multiset(DeleteNonDigits(s))[c] == multiset(s)[c]
  {
    if s != [] {
      DeleteNonDigitsSpec(s[1..]);
      assert s == [s[0]] + s[1..];
    }
  }

  /** The normalised number of config.js:216-217. */
  function NormalizePhone(raw: string): (phone: string)
    ensures AllDigits(phone)
    ensures phone == [] || phone[0] != '+'
  {
    DeleteNonDigits(StripLeadingPlus(Trim(raw)))
  }

  const SendBase: string := "https://api.whatsapp.com/send?"

  /** The deep link; the number is used unless the caller says otherwise. */
  function Link(number: string, message: string, useNumber: bool := true): (url: string)
  {
    var phone := NormalizePhone(number);
    var text := Encode(Trim(message));
    SendBase + if useNumber && phone != [] then "phone=" + phone + "&text=" + text else "text=" + text
  }

  // ----- the receiving side: reading the query parameters back -----

  /** `s` split at every `sep`. */
  function Split(s: string, sep: char): (parts: seq<string>)
    ensures |parts| >= 1
  {
    if s == [] then [[]]
    else
      var rest := Split(s[1..], sep);
      if s[0] == sep then [[]] + rest else [[s[0]] + rest[0]] + rest[1..]
  }

  /** The value of the first `name=value` field, if any. */
  function Param(fields: seq<string>, name: string): Option<string> {
    if fields == [] then None
    else
      var key := name + "=";
      if |key| <= |fields[0]| && fields[0][..|key|] == key then Some(fields[0][|key|..])
      else Param(fields[1..], name)
  }

  /** The query parameter `name` of a send link. */
  function LinkParam(url: string, name: string): Option<string> {
    if |SendBase| <= |url| && url[..|SendBase|] == SendBase then Param(Split(url[|SendBase|..], '&'), name)
    else None
  }

  lemma {:induction false} SplitNoSep(s: string, sep: char)
    requires sep !in s
    ensures Split(s, sep) == [s]
  {
    if s != [] {
      SplitNoSep(s[1..], sep);
      assert [s[0]] + s[1..] == s;
    }
  }

  lemma {:induction false} SplitAt(a: string, sep: char, b: string)
    requires sep !in a
    ensures Split(a + [sep] + b, sep) == [a] + Split(b, sep)
  {
    var s := a + [sep] + b;
    if a == [] {
      assert s[1..] == b;
    } else {
      assert s[1..] == a[1..] + [sep] + b;
      SplitAt(a[1..], sep, b);
      assert [a[0]] + a[1..] == a;
    }
  }

  /** The query of a link with a number: both fields read back. */
  lemma QueryWithPhone(phone: string, text: string)
    requires AllDigits(phone) && '&' !in text
    ensures Param(Split("phone=" + phone + "&text=" + text, '&'), "phone") == Some(phone)
    ensures Param(Split("phone=" + phone + "&text=" + text, '&'), "text") == Some(text)
  {
    var q, f := "phone=" + phone, "text=" + text;
    assert '&' !in q by {
      assert forall i :: 0 <= i < |q| ==> q[i] != '&';
    }
    assert "phone=" + phone + "&text=" + text == q + ['&'] + f;
    SplitAt(q, '&', f);
    SplitNoSep(f, '&');
    var fields := [q, f];
    assert Split(q + ['&'] + f, '&') == fields;
    assert q[..|"text="|] != "text=" by { assert q[0] == 'p'; }
    assert fields[1..] == [f];
    assert q[|"phone="|..] == phone && f[|"text="|..] == text;
  }

  /** The query of a link without a number: no `phone` field, and the text reads back. */
  lemma QueryWithoutPhone(text: string)
    requires '&' !in text
    ensures Param(Split("text=" + text, '&'), "phone") == None
    ensures Param(Split("text=" + text, '&'), "text") == Some(text)
  {
    var f := "text=" + text;
    SplitNoSep(f, '&');
    assert |f| < |"phone="| || f[..|"phone="|] != "phone=" by {
      if |f| >= |"phone="| { assert f[0] == 't'; }
    }
    assert f[|"text="|..] == text;
  }

  lemma LinkParamOfQuery(q: string, name: string)
    ensures LinkParam(SendBase + q, name) == Param(Split(q, '&'), name)
  {
    var url := SendBase + q;
    assert url[..|SendBase|] == SendBase && url[|SendBase|..] == q;
  }

  /**
   * The link carries `phone` exactly when the number is asked for and some
   * digit survives normalisation, and always carries the encoded trimmed
   * message as `text`.
   */
  lemma LinkParams(number: string, message: string, useNumber: bool)
    ensures LinkParam(Link(number, message, useNumber), "phone") ==
              if useNumber && NormalizePhone(number) != [] then Some(NormalizePhone(number)) else None
    ensures LinkParam(Link(number, message, useNumber), "text") == Some(Encode(Trim(message)))
  {
    var phone := NormalizePhone(number);
    var text := Encode(Trim(message));
    var url := Link(number, message, useNumber);
    EncodeHasNo(Trim(message), '&');
    if useNumber && phone != [] {
      var q := "phone=" + phone + "&text=" + text;
      LinkParamOfQuery(q, "phone");
      LinkParamOfQuery(q, "text");
      QueryWithPhone(phone, text);
    } else {
      var q := "text=" + text;
      LinkParamOfQuery(q, "phone");
      LinkParamOfQuery(q, "text");
      QueryWithoutPhone(text);
    }
  }

  /** The message the receiving side reads out of a link. */
  function ReceivedText(url: string): Option<string> {
    match LinkParam(url, "text")
    case None => None
    case Some(t) => Decode(t)
  }

  /** Whatever number is used, the receiver reads back the trimmed message. */
  lemma LinkDeliversMessage(number: string, message: string, useNumber: bool)
    ensures ReceivedText(Link(number, message, useNumber)) == Some(Trim(message))
  {
    LinkParams(number, message, useNumber);
    EncodeRoundTrip(Trim(message));
  }

  /** Neither trimming nor dropping a leading `+` changes which digits survive. */
  lemma {:induction false} DeleteNonDigitsAppend(a: string, b: string)
    ensures DeleteNonDigits(a + b) == DeleteNonDigits(a) + DeleteNonDigits(b)
  {
    if a != [] {
      assert (a + b)[1..] == a[1..] + b;
      DeleteNonDigitsAppend(a[1..], b);
    } else {
      assert a + b == b;
    }
  }

  lemma {:induction false} DeleteNonDigitsOfNonDigits(s: string)
    requires forall i :: 0 <= i < |s| ==> !IsDigit(s[i])
    ensures DeleteNonDigits(s) == []
  {
    if s != [] {
      DeleteNonDigitsOfNonDigits(s[1..]);
    }
  }

  lemma {:induction false} DeleteNonDigitsKeepsDigits(s: string)
    requires AllDigits(s)
    ensures DeleteNonDigits(s) == s
  {
    if s != [] {
      DeleteNonDigitsKeepsDigits(s[1..]);
      assert [s[0]] + s[1..] == s;
    }
  }

  lemma DeleteNonDigitsPadded(lead: string, t: string, trail: string)
    requires AllWhiteSpace(lead) && AllWhiteSpace(trail)
    ensures DeleteNonDigits(lead + t + trail) == DeleteNonDigits(t)
  {
    DeleteNonDigitsAppend(lead + t, trail);
    DeleteNonDigitsAppend(lead, t);
    DeleteNonDigitsOfNonDigits(lead);
    DeleteNonDigitsOfNonDigits(trail);
  }

  lemma DeleteNonDigitsStripPlus(t: string)
    ensures DeleteNonDigits(StripLeadingPlus(t)) == DeleteNonDigits(t)
  {
    if t != [] && t[0] == '+' {
      assert t == ['+'] + t[1..];
      DeleteNonDigitsAppend(['+'], t[1..]);
      DeleteNonDigitsOfNonDigits(['+']);
    }
  }

  /** The normalised number is the digits of the raw input, trim and `+` notwithstanding. */
  lemma NormalizeIsDigitsOfRaw(raw: string)
    ensures NormalizePhone(raw) == DeleteNonDigits(raw)
  {
    var t := Trim(raw);
    TrimSpec(raw);
    var n :| 0 <= n && n + |t| <= |raw| && raw == raw[..n] + t + raw[n + |t|..]
             && AllWhiteSpace(raw[..n]) && AllWhiteSpace(raw[n + |t|..]);
    DeleteNonDigitsPadded(raw[..n], t, raw[n + |t|..]);
    DeleteNonDigitsStripPlus(t);
  }

  /**
   * The normalised number holds exactly the digits of the raw input, in
   * their order, each as often as the input holds it.
   */
  lemma NormalizeSpec(raw: string)
    ensures IsSubsequence(NormalizePhone(raw), raw)
    ensures forall c :: IsDigit(c) ==> multiset(NormalizePhone(raw))[c] == multiset(raw)[c]
  {
    NormalizeIsDigitsOfRaw(raw);
    DeleteNonDigitsSpec(raw);
  }

  /** Normalising an already normalised number changes nothing. */
  lemma NormalizeIdempotent(raw: string)
    ensures NormalizePhone(NormalizePhone(raw)) == NormalizePhone(raw)
  {
    var p := NormalizePhone(raw);
    TrimKeeps(p);
    DeleteNonDigitsKeepsDigits(p);
  }
}
