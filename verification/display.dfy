/** Helpers for the history list: the icon of an entry and its one-line label. */
module Display {
  import opened Wrappers
  import opened Registry
  import History

  const FallbackIcon: string := "fa-qrcode"

  /** The icon table of the eight types. */
  function Icon(t: QrType): string {
    match t
    case Url => "fa-link"
    case Email => "fa-envelope"
    case Phone => "fa-phone"
    case Sms => "fa-sms"
    case WhatsApp => "fa-whatsapp"
    case Wifi => "fa-wifi"
    case Vcard => "fa-address-card"
    case Text => "fa-align-left"
  }

  /** `getIconForType`: the table entry of a known type key, the generic QR
      icon for any other string. */
  function IconForType(typeName: string): (r: string)
    ensures forall t: QrType :: typeName == Name(t) ==> r == Icon(t)
    ensures (forall t: QrType :: typeName != Name(t)) ==> r == FallbackIcon
  {
    match Parse(typeName)
    case Some(t) => Icon(t)
    case None => FallbackIcon
  }

  /** The icon tells the types apart and never looks like the fallback. */
  lemma IconsDistinct(t: QrType, u: QrType)
    ensures Icon(t) == Icon(u) <==> t == u
    ensures Icon(t) != FallbackIcon
  {
  }

  const TextLabelLength: nat := 30
  const Ellipsis: string := "..."
  const DefaultLabel: string := "QR Code"

  /** `substring(0, 30) + '...'`: the ellipsis is added whether or not
      anything was cut. */
  function TextLabel(s: string): (r: string)
    ensures |r| == History.Min(|s|, TextLabelLength) + |Ellipsis|
    ensures r[..|r| - |Ellipsis|] <= s && r[|r| - |Ellipsis|..] == Ellipsis
  {
    s[..History.Min(|s|, TextLabelLength)] + Ellipsis
  }

  /** The JavaScript `a || b` on an optional string: `a` unless it is
      undefined or empty. */
  function OrElse(a: Option<string>, b: Option<string>): (r: Option<string>)
    ensures a.Some? && a.value != "" ==> r == a
    ensures (a.None? || a.value == "") ==> r == b
  {
    if a.Some? && a.value != "" then a else b
  }

  /** The entry may be read as `formatHistoryItemText` reads it: a text
      entry must hold `textContent`, whose `substring` would otherwise throw. */
  predicate Labelable(e: History.Entry) {
    e.typeName == "text" ==> "textContent" in e.data
  }

  /** `formatHistoryItemText`; None stands for `undefined`, what the page
      shows when the field looked up is absent. */
  function Label(e: History.Entry): (r: Option<string>)
    requires Labelable(e)
    ensures Parse(e.typeName).None? ==> r == Some(DefaultLabel)
    ensures e.typeName == "text" ==> r == Some(TextLabel(e.data["textContent"]))
  {
    var d := e.data;
    match Parse(e.typeName)
    case Some(Url) => Get(d, "urlInput")
    case Some(Email) => Get(d, "emailTo")
    case Some(Phone) => OrElse(Get(d, e.typeName + "Number"), Get(d, "phoneNumber"))
    case Some(Sms) => OrElse(Get(d, e.typeName + "Number"), Get(d, "phoneNumber"))
    case Some(WhatsApp) => OrElse(Get(d, e.typeName + "Number"), Get(d, "phoneNumber"))
    case Some(Wifi) => Get(d, "wifiSsid")
    case Some(Vcard) => Get(d, "vcardName")
    case Some(Text) => Some(TextLabel(d["textContent"]))
    case None => Some(DefaultLabel)
  }

  /** The map a generation records for type `t`: its declared ids and no others. */
  predicate Recorded(t: QrType, d: map<string, string>) {
    d.Keys == IdSet(t)
  }

  /** For an entry recorded by a generation, the label is the type's display
      field: the url, recipient, phone number, sms number, ssid, name or
      truncated text. A whatsapp entry never has a label, since neither
      `whatsappNumber` nor `phoneNumber` is one of its fields, and an sms
      entry with an empty number has none either. */
  lemma LabelOfRecordedEntry(t: QrType, e: History.Entry)
    requires e.typeName == Name(t) && Recorded(t, e.data)
    ensures Labelable(e)
    ensures t == Url ==> Label(e) == Some(e.data["urlInput"])
    ensures t == Email ==> Label(e) == Some(e.data["emailTo"])
    ensures t == Phone ==> Label(e) == Some(e.data["phoneNumber"])
    ensures t == Sms ==> Label(e) == if e.data["smsNumber"] != "" then Some(e.data["smsNumber"]) else None
    ensures t == WhatsApp ==> Label(e) == None
    ensures t == Wifi ==> Label(e) == Some(e.data["wifiSsid"])
    ensures t == Vcard ==> Label(e) == Some(e.data["vcardName"])
    ensures t == Text ==> Label(e) == Some(TextLabel(e.data["textContent"]))
  {
    ParseOfName(t);
    match t
    case Url => assert "urlInput" in Ids(Url);
    case Email => assert "emailTo" in Ids(Email);
    case Phone => LabelOfRecordedNumber(Phone, e);
    case Sms => LabelOfRecordedNumber(Sms, e);
    case WhatsApp => LabelOfRecordedNumber(WhatsApp, e);
    case Wifi => assert "wifiSsid" in Ids(Wifi);
    case Vcard => assert "vcardName" in Ids(Vcard);
    case Text => assert "textContent" in Ids(Text);
  }

  lemma LabelOfRecordedNumber(t: QrType, e: History.Entry)
    requires t == Phone || t == Sms || t == WhatsApp
    requires e.typeName == Name(t) && Recorded(t, e.data)
    ensures t == Phone ==> Label(e) == Some(e.data["phoneNumber"])
    ensures t == Sms ==> Label(e) == if e.data["smsNumber"] != "" then Some(e.data["smsNumber"]) else None
    ensures t == WhatsApp ==> Label(e) == None
  {
    ParseOfName(t);
    var d := e.data;
    var primary := Get(d, e.typeName + "Number");
    assert Label(e) == OrElse(primary, Get(d, "phoneNumber"));
    if t == Phone {
      assert e.typeName + "Number" == "phoneNumber";
      assert "phoneNumber" in Ids(Phone);
    } else if t == Sms {
      assert e.typeName + "Number" == "smsNumber";
      assert "smsNumber" in Ids(Sms) && "phoneNumber" !in Ids(Sms);
    } else {
      assert e.typeName + "Number" == "whatsappNumber";
      assert "whatsappNumber" !in Ids(WhatsApp) && "phoneNumber" !in Ids(WhatsApp);
    }
  }
}
