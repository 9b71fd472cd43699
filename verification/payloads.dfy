/** The `format` function of each content type: how a field map becomes the
    text encoded in the QR symbol. Values are inserted verbatim except where
    a type applies encodeURIComponent or strips non-digits.

    Each payload comes with its reader (ParseMailto, ParseSms, ParseWaMe,
    ParseWifi, and Split on line feeds for vCard), a lemma stating a
    condition under which the reader gets the fields back, and a lemma
    showing that the condition is also necessary. */
module Payloads {
  import opened Wrappers
  import opened Strings
  import opened Registry
  import UriComponent

  type FieldValues = map<string, string>

  /** The map holds every id the type declares. Without one, the url and
      text formatters would return `undefined` itself, the WhatsApp formatter
      would throw when the number is missing, and the others would write the
      text `undefined` into the payload. */
  predicate HasFields(t: QrType, d: FieldValues) {
    forall k :: k in Ids(t) ==> k in d
  }

  function Enc(s: string): string {
    UriComponent.Encode(s)
  }

  // ---- email -------------------------------------------------------------

  function EmailPayload(to: string, subject: string, body: string): string {
    "mailto:" + to + "?subject=" + Enc(subject) + "&body=" + Enc(body)
  }

  /** A mailto reader: recipient up to the first `?`, then the query. */
  function ParseMailto(p: string): Option<(string, string, string)> {
    var rest :- StripPrefix(p, "mailto:");
    var toAndQuery :- SplitFirst(rest, '?');
    var fields :- ParseMailtoQuery(toAndQuery.1);
    Some((toAndQuery.0, fields.0, fields.1))
  }

  /** The `subject` and `body` parameters of a mailto query, in that order,
      percent-decoded. */
  function ParseMailtoQuery(query: string): Option<(string, string)> {
    var q :- StripPrefix(query, "subject=");
    var subjectAndRest :- SplitFirst(q, '&');
    var encBody :- StripPrefix(subjectAndRest.1, "body=");
    var subject :- UriComponent.Decode(subjectAndRest.0);
    var body :- UriComponent.Decode(encBody);
    Some((subject, body))
  }

  lemma MailtoShape(to: string, es: string, eb: string)
    ensures "mailto:" + to + "?subject=" + es + "&body=" + eb ==
            "mailto:" + (to + ['?'] + ("subject=" + (es + ['&'] + ("body=" + eb))))
  {
  }

  lemma ParseMailtoQuerySteps(query: string, q: string, es: string, q2: string, eb: string,
                              subject: string, body: string)
    requires StripPrefix(query, "subject=") == Some(q)
    requires SplitFirst(q, '&') == Some((es, q2))
    requires StripPrefix(q2, "body=") == Some(eb)
    requires UriComponent.Decode(es) == Some(subject) && UriComponent.Decode(eb) == Some(body)
    ensures ParseMailtoQuery(query) == Some((subject, body))
  {
  }

  lemma ParseMailtoSteps(p: string, rest: string, to: string, query: string,
                         subject: string, body: string)
    requires StripPrefix(p, "mailto:") == Some(rest)
    requires SplitFirst(rest, '?') == Some((to, query))
    requires ParseMailtoQuery(query) == Some((subject, body))
    ensures ParseMailto(p) == Some((to, subject, body))
  {
  }

  /** The reader's side alone, for any escaped subject without `&`. */
  lemma ParseMailtoOfParts(to: string, es: string, eb: string, subject: string, body: string)
    requires '?' !in to && '&' !in es
    requires UriComponent.Decode(es) == Some(subject) && UriComponent.Decode(eb) == Some(body)
    ensures ParseMailto("mailto:" + to + "?subject=" + es + "&body=" + eb) == Some((to, subject, body))
  {
    var q2 := "body=" + eb;
    var q := es + ['&'] + q2;
    var query := "subject=" + q;
    var rest := to + ['?'] + query;
    MailtoShape(to, es, eb);
    StripThenSplit("mailto:", to, '?', query);
    StripThenSplit("subject=", es, '&', q2);
    StripPrefixOfConcat("body=", eb);
    ParseMailtoQuerySteps(query, q, es, q2, eb, subject, body);
    ParseMailtoSteps("mailto:" + rest, rest, to, query, subject, body);
  }

  /** The recipient, subject and body are recovered from an email payload
      whenever the recipient holds no `?`: the escaped subject cannot hold
      the `&` that ends it. */
  lemma MailtoRoundTrip(to: string, subject: string, body: string)
    requires '?' !in to
    ensures ParseMailto(EmailPayload(to, subject, body)) == Some((to, subject, body))
  {
    UriComponent.EncodeHasNoDelimiters(subject);
    UriComponent.DecodeOfEncode(subject);
    UriComponent.DecodeOfEncode(body);
    ParseMailtoOfParts(to, Enc(subject), Enc(body), subject, body);
  }

  /** Whatever the reader accepts, the recipient it returns holds no `?`. */
  lemma ParseMailtoRecipient(p: string)
    ensures ParseMailto(p).Some? ==> '?' !in ParseMailto(p).value.0
  {
    if ParseMailto(p).Some? {
      var rest := StripPrefix(p, "mailto:").value;
      assert '?' !in SplitFirst(rest, '?').value.0;
    }
  }

  /** The converse: a recipient holding `?` never reads back. */
  lemma MailtoRecipientWithQuery(to: string, subject: string, body: string)
    requires '?' in to
    ensures ParseMailto(EmailPayload(to, subject, body)) != Some((to, subject, body))
  {
    ParseMailtoRecipient(EmailPayload(to, subject, body));
  }

  // ---- sms ---------------------------------------------------------------

  function SmsPayload(number: string, message: string): string {
    "sms:" + number + "?body=" + Enc(message)
  }

  function ParseSms(p: string): Option<(string, string)> {
    var rest :- StripPrefix(p, "sms:");
    var numberAndQuery :- SplitFirst(rest, '?');
    var encMessage :- StripPrefix(numberAndQuery.1, "body=");
    var message :- UriComponent.Decode(encMessage);
    Some((numberAndQuery.0, message))
  }

  lemma ParseSmsOfParts(number: string, em: string, message: string)
    requires '?' !in number
    requires UriComponent.Decode(em) == Some(message)
    ensures ParseSms("sms:" + number + "?body=" + em) == Some((number, message))
  {
    var rest := number + ['?'] + ("body=" + em);
    assert "sms:" + number + "?body=" + em == "sms:" + rest;
    StripPrefixOfConcat("sms:", rest);
    SplitFirstOfJoin(number, '?', "body=" + em);
    StripPrefixOfConcat("body=", em);
  }

  /** The number and message are recovered from an sms payload whenever the
      number holds no `?`. */
  lemma SmsRoundTrip(number: string, message: string)
    requires '?' !in number
    ensures ParseSms(SmsPayload(number, message)) == Some((number, message))
  {
    UriComponent.DecodeOfEncode(message);
    ParseSmsOfParts(number, Enc(message), message);
  }

  /** The converse: a number holding `?` never reads back. */
  lemma SmsNumberWithQuery(number: string, message: string)
    requires '?' in number
    ensures ParseSms(SmsPayload(number, message)) != Some((number, message))
  {
    var p := SmsPayload(number, message);
    if ParseSms(p).Some? {
      var rest := StripPrefix(p, "sms:").value;
      assert '?' !in SplitFirst(rest, '?').value.0;
    }
  }

  // ---- whatsapp ----------------------------------------------------------

  predicate IsDigit(c: char) {
    '0' <= c <= '9'
  }

  /** `replace(/\D/g, '')`: every character other than an ASCII digit removed. */
  function StripNonDigits(s: string): (r: string)
    ensures |r| <= |s|
    ensures forall i :: 0 <= i < |r| ==> IsDigit(r[i])
  {
    if |s| == 0 then []
    else if IsDigit(s[0]) then [s[0]] + StripNonDigits(s[1..])
    else StripNonDigits(s[1..])
  }

  /** Stripping works character by character: it distributes over
      concatenation, keeping a digit and dropping anything else, so the
      digits survive in their original order. */
  lemma {:induction false} StripNonDigitsConcat(a: string, b: string)
    ensures StripNonDigits(a + b) == StripNonDigits(a) + StripNonDigits(b)
  {
    if |a| == 0 {
      assert a + b == b;
    } else {
      assert (a + b)[0] == a[0];
      assert (a + b)[1..] == a[1..] + b;
      StripNonDigitsConcat(a[1..], b);
    }
  }

  lemma StripNonDigitsOfChar(c: char)
    ensures StripNonDigits([c]) == if IsDigit(c) then [c] else []
  {
  }

  /** A string is left unchanged exactly when it is all digits. */
  lemma {:induction false} StripNonDigitsFixpoint(s: string)
    ensures StripNonDigits(s) == s <==> forall i :: 0 <= i < |s| ==> IsDigit(s[i])
  {
    if |s| > 0 {
      StripNonDigitsFixpoint(s[1..]);
      if IsDigit(s[0]) {
        assert StripNonDigits(s) == [s[0]] + StripNonDigits(s[1..]);
        assert s == [s[0]] + s[1..];
        assert forall i :: 1 <= i < |s| ==> s[i] == s[1..][i - 1];
      } else {
        assert |StripNonDigits(s)| < |s|;
      }
    }
  }

  lemma StripNonDigitsIdempotent(s: string)
    ensures StripNonDigits(StripNonDigits(s)) == StripNonDigits(s)
  {
    StripNonDigitsFixpoint(StripNonDigits(s));
  }

  function WhatsAppPayload(number: string, message: string): string {
    "https://wa.me/" + StripNonDigits(number) + "?text=" + Enc(message)
  }

  function ParseWaMe(p: string): Option<(string, string)> {
    var rest :- StripPrefix(p, "https://wa.me/");
    var numberAndQuery :- SplitFirst(rest, '?');
    var encMessage :- StripPrefix(numberAndQuery.1, "text=");
    var message :- UriComponent.Decode(encMessage);
    Some((numberAndQuery.0, message))
  }

  lemma ParseWaMeOfParts(digits: string, em: string, message: string)
    requires '?' !in digits
    requires UriComponent.Decode(em) == Some(message)
    ensures ParseWaMe("https://wa.me/" + digits + "?text=" + em) == Some((digits, message))
  {
    var rest := digits + ['?'] + ("text=" + em);
    assert "https://wa.me/" + digits + "?text=" + em == "https://wa.me/" + rest;
    StripPrefixOfConcat("https://wa.me/", rest);
    SplitFirstOfJoin(digits, '?', "text=" + em);
    StripPrefixOfConcat("text=", em);
  }

  /** A wa.me link always yields the digits of the number and the message:
      the stripped number can never hold the `?` that ends it. */
  lemma WhatsAppRoundTrip(number: string, message: string)
    ensures ParseWaMe(WhatsAppPayload(number, message)) == Some((StripNonDigits(number), message))
  {
    var digits := StripNonDigits(number);
    assert '?' !in digits by {
      assert !IsDigit('?');
    }
    UriComponent.DecodeOfEncode(message);
    ParseWaMeOfParts(digits, Enc(message), message);
  }

  // ---- wifi --------------------------------------------------------------

  /** The ZXing-style network string; no value is escaped. */
  function WifiPayload(encryption: string, ssid: string, password: string): string {
    "WIFI:T:" + encryption + ";S:" + ssid + ";P:" + password + ";;"
  }

  /** A WIFI reader: type and ssid each end at the next `;`, the password
      runs up to the closing `;;`. */
  function ParseWifi(p: string): Option<(string, string, string)> {
    var rest :- StripPrefix(p, "WIFI:T:");
    var typeAndRest :- SplitFirst(rest, ';');
    var r1 :- StripPrefix(typeAndRest.1, "S:");
    var ssidAndRest :- SplitFirst(r1, ';');
    var r2 :- StripPrefix(ssidAndRest.1, "P:");
    if |r2| >= 2 && r2[|r2| - 2..] == ";;" then
      Some((typeAndRest.0, ssidAndRest.0, r2[..|r2| - 2]))
    else None
  }

  /** The three values are recovered whenever the type and the ssid hold no
      `;`; the password may hold anything. */
  lemma WifiRoundTrip(encryption: string, ssid: string, password: string)
    requires ';' !in encryption && ';' !in ssid
    ensures ParseWifi(WifiPayload(encryption, ssid, password)) == Some((encryption, ssid, password))
  {
    var p := WifiPayload(encryption, ssid, password);
    var r2 := password + ";;";
    var tail := "P:" + r2;
    var r1 := "S:" + (ssid + [';'] + tail);
    var rest := encryption + [';'] + r1;
    assert StripPrefix(p, "WIFI:T:") == Some(rest) by {
      assert p == "WIFI:T:" + rest;
      StripPrefixOfConcat("WIFI:T:", rest);
    }
    assert SplitFirst(rest, ';') == Some((encryption, r1)) by {
      SplitFirstOfJoin(encryption, ';', r1);
    }
    assert StripPrefix(r1, "S:") == Some(ssid + [';'] + tail) by {
      StripPrefixOfConcat("S:", ssid + [';'] + tail);
    }
    assert SplitFirst(ssid + [';'] + tail, ';') == Some((ssid, tail)) by {
      SplitFirstOfJoin(ssid, ';', tail);
    }
    assert StripPrefix(tail, "P:") == Some(r2) by {
      StripPrefixOfConcat("P:", r2);
    }
    assert r2[|r2| - 2..] == ";;" && r2[..|r2| - 2] == password;
  }

  /** The converse: a type or ssid holding `;` never reads back, because the
      reader ends each of them at the next `;`. */
  lemma WifiFieldWithSeparator(encryption: string, ssid: string, password: string)
    requires ';' in encryption || ';' in ssid
    ensures ParseWifi(WifiPayload(encryption, ssid, password)) != Some((encryption, ssid, password))
  {
    var p := WifiPayload(encryption, ssid, password);
    if ParseWifi(p).Some? {
      var rest := StripPrefix(p, "WIFI:T:").value;
      var typeAndRest := SplitFirst(rest, ';').value;
      assert ';' !in typeAndRest.0;
      var r1 := StripPrefix(typeAndRest.1, "S:").value;
      assert ';' !in SplitFirst(r1, ';').value.0;
    }
  }

  /** Without escaping the payload does not determine the network: an ssid
      holding `;P:` reads the same as a different ssid and password. */
  lemma WifiPayloadAmbiguous()
    ensures WifiPayload("WPA", "home;P:x", "") == WifiPayload("WPA", "home", "x;P:")
    ensures ("home;P:x", "") != ("home", "x;P:")
  {
  }

  // ---- vcard -------------------------------------------------------------

  /** The nine lines of the vCard 3.0 record, values verbatim. */
  function VcardLines(name: string, phone: string, email: string, url: string,
                      org: string, address: string): (lines: seq<string>)
    ensures |lines| == 9
  {
    ["BEGIN:VCARD", "VERSION:3.0", "FN:" + name, "TEL:" + phone, "EMAIL:" + email,
     "URL:" + url, "ORG:" + org, AdrLine(address), "END:VCARD"]
  }

  function AdrLine(address: string): string {
    "ADR:;;" + address + ";;;"
  }

  /** The record's lines joined by a bare line feed (no CR). */
  function VcardPayload(name: string, phone: string, email: string, url: string,
                        org: string, address: string): string
  {
    Join(VcardLines(name, phone, email, url, org, address), '\n')
  }

  /** Split on line feeds, the payload reads back as exactly the nine lines
      BEGIN, VERSION, FN, TEL, EMAIL, URL, ORG, ADR, END, provided no value
      holds a line feed (one that does starts a line of its own). */
  lemma VcardLineStructure(name: string, phone: string, email: string, url: string,
                           org: string, address: string)
    requires '\n' !in name && '\n' !in phone && '\n' !in email
    requires '\n' !in url && '\n' !in org && '\n' !in address
    ensures Split(VcardPayload(name, phone, email, url, org, address), '\n') ==
      ["BEGIN:VCARD", "VERSION:3.0", "FN:" + name, "TEL:" + phone, "EMAIL:" + email,
       "URL:" + url, "ORG:" + org, "ADR:;;" + address + ";;;", "END:VCARD"]
  {
    var lines := VcardLines(name, phone, email, url, org, address);
    forall i | 0 <= i < |lines|
      ensures '\n' !in lines[i]
    {
    }
    SplitOfJoin(lines, '\n');
  }

  /** The converse: a value holding a line feed breaks the nine-line
      structure, because no piece of a split holds the separator. */
  lemma VcardValueWithLineFeed(name: string, phone: string, email: string, url: string,
                               org: string, address: string)
    requires '\n' in name || '\n' in phone || '\n' in email
          || '\n' in url || '\n' in org || '\n' in address
    ensures Split(VcardPayload(name, phone, email, url, org, address), '\n') !=
      ["BEGIN:VCARD", "VERSION:3.0", "FN:" + name, "TEL:" + phone, "EMAIL:" + email,
       "URL:" + url, "ORG:" + org, "ADR:;;" + address + ";;;", "END:VCARD"]
  {
    var lines := ["BEGIN:VCARD", "VERSION:3.0", "FN:" + name, "TEL:" + phone, "EMAIL:" + email,
                  "URL:" + url, "ORG:" + org, "ADR:;;" + address + ";;;", "END:VCARD"];
    var k :| 2 <= k < 8 && '\n' in lines[k] by {
      if '\n' in name { LineFeedInSuffix("FN:", name); assert '\n' in lines[2]; }
      else if '\n' in phone { LineFeedInSuffix("TEL:", phone); assert '\n' in lines[3]; }
      else if '\n' in email { LineFeedInSuffix("EMAIL:", email); assert '\n' in lines[4]; }
      else if '\n' in url { LineFeedInSuffix("URL:", url); assert '\n' in lines[5]; }
      else if '\n' in org { LineFeedInSuffix("ORG:", org); assert '\n' in lines[6]; }
      else { LineFeedInSuffix("ADR:;;", address + ";;;"); assert '\n' in lines[7]; }
    }
  }

  lemma LineFeedInSuffix(pre: string, s: string)
    requires '\n' in s
    ensures '\n' in pre + s
  {
    var i :| 0 <= i < |s| && s[i] == '\n';
    assert (pre + s)[|pre| + i] == '\n';
  }

  /** The ADR value has six `;`-separated components, the address in the
      third; section 3.2.1 of RFC 2426 defines seven. */
  lemma AdrComponents(address: string)
    requires ';' !in address
    ensures Split(AdrLine(address)[4..], ';') == ["", "", address, "", "", ""]
  {
    var parts := ["", "", address, "", "", ""];
    assert Join(parts[5..], ';') == "";
    assert Join(parts[4..], ';') == ";";
    assert Join(parts[3..], ';') == ";;";
    assert Join(parts[2..], ';') == address + ";;;";
    assert Join(parts[1..], ';') == ";" + address + ";;;";
    assert Join(parts, ';') == AdrLine(address)[4..];
    SplitOfJoin(parts, ';');
  }

  // ---- dispatch ----------------------------------------------------------

  /** The values of the declared fields, in the order of `Ids(t)`. */
  function Values(t: QrType, d: FieldValues): (vs: seq<string>)
    requires HasFields(t, d)
    ensures |vs| == |Ids(t)|
    ensures forall i :: 0 <= i < |vs| ==> vs[i] == d[Ids(t)[i]]
  {
    seq(|Ids(t)|, i requires 0 <= i < |Ids(t)| => d[Ids(t)[i]])
  }

  /** The `format` function of each type, applied to its field values in
      declaration order (see `Registry.Ids`). */
  function FormatValues(t: QrType, vs: seq<string>): string
    requires |vs| == |Ids(t)|
  {
    match t
    case Url => vs[0]
    case Email => EmailPayload(vs[0], vs[1], vs[2])
    case Phone => "tel:" + vs[0]
    case Sms => SmsPayload(vs[0], vs[1])
    case WhatsApp => WhatsAppPayload(vs[0], vs[1])
    case Wifi => WifiPayload(vs[2], vs[0], vs[1])
    case Vcard => VcardPayload(vs[0], vs[1], vs[2], vs[3], vs[4], vs[5])
    case Text => vs[0]
  }

  /** `qrTypes[t].format(d)`. The url and text payloads are the field value
      itself, the phone payload is `tel:` and the number, and the others
      take the named fields in the places their payload functions give. */
  function Format(t: QrType, d: FieldValues): (r: string)
    requires HasFields(t, d)
    ensures t == Url ==> r == d["urlInput"]
    ensures t == Text ==> r == d["textContent"]
    ensures t == Phone ==> r == "tel:" + d["phoneNumber"]
    ensures t == Email ==> r == EmailPayload(d["emailTo"], d["emailSubject"], d["emailBody"])
    ensures t == Sms ==> r == SmsPayload(d["smsNumber"], d["smsMessage"])
    ensures t == WhatsApp ==> r == WhatsAppPayload(d["waNumber"], d["waMessage"])
    ensures t == Wifi ==> r == WifiPayload(d["wifiType"], d["wifiSsid"], d["wifiPassword"])
    ensures t == Vcard ==> r == VcardPayload(d["vcardName"], d["vcardPhone"], d["vcardEmail"],
                                             d["vcardUrl"], d["vcardOrg"], d["vcardAddress"])
  {
    FormatValues(t, Values(t, d))
  }

  /** Only the declared ids are read: two maps that agree on them format
      to the same payload, whatever else they hold. */
  lemma FormatReadsOnlyDeclaredIds(t: QrType, d: FieldValues, e: FieldValues)
    requires HasFields(t, d) && HasFields(t, e)
    requires forall k :: k in Ids(t) ==> d[k] == e[k]
    ensures Format(t, d) == Format(t, e)
  {
    assert Values(t, d) == Values(t, e);
  }
}
