/** The fixed table of content types: for each one, the ordered input fields
    the form shows. Payload formatting lives in the Payloads module. */
module Registry {
  import opened Wrappers

  /** The eight content types, in the order the table declares them. */
  datatype QrType = Url | Email | Phone | Sms | WhatsApp | Wifi | Vcard | Text

  /** The key of the type in the table, which is also what a history entry records. */
  function Name(t: QrType): string {
    match t
    case Url => "url"
    case Email => "email"
    case Phone => "phone"
    case Sms => "sms"
    case WhatsApp => "whatsapp"
    case Wifi => "wifi"
    case Vcard => "vcard"
    case Text => "text"
  }

  /** The type whose key is `s`, if any. */
  function Parse(s: string): (r: Option<QrType>)
    ensures r.Some? ==> Name(r.value) == s
    ensures r.None? ==> forall t: QrType :: Name(t) != s
  {
    if s == "url" then Some(Url)
    else if s == "email" then Some(Email)
    else if s == "phone" then Some(Phone)
    else if s == "sms" then Some(Sms)
    else if s == "whatsapp" then Some(WhatsApp)
    else if s == "wifi" then Some(Wifi)
    else if s == "vcard" then Some(Vcard)
    else if s == "text" then Some(Text)
    else None
  }

  /** Names are distinct, so a recorded name identifies its type. */
  lemma ParseOfName(t: QrType)
    ensures Parse(Name(t)) == Some(t)
  {
  }

  /** The HTML control a field is rendered as; only a select carries choices. */
  datatype InputKind =
    | TextLine | UrlLine | EmailLine | TelLine | PasswordLine | TextArea
    | Select(options: seq<string>)

  /** A field descriptor; the select field has no placeholder. */
  datatype Field = Field(caption: string, kind: InputKind, id: string, placeholder: Option<string>)

  predicate DistinctIds(fs: seq<Field>) {
    forall i, j :: 0 <= i < j < |fs| ==> fs[i].id != fs[j].id
  }

  const WifiEncryptions: seq<string> := ["WPA", "WEP", "nopass"]

  /** The field ids of each type, in form order: never empty, never repeated. */
  function Ids(t: QrType): (ids: seq<string>)
    ensures |ids| >= 1
    ensures forall i, j :: 0 <= i < j < |ids| ==> ids[i] != ids[j]
  {
    match t
    case Url => ["urlInput"]
    case Email => ["emailTo", "emailSubject", "emailBody"]
    case Phone => ["phoneNumber"]
    case Sms => ["smsNumber", "smsMessage"]
    case WhatsApp => ["waNumber", "waMessage"]
    case Wifi => ["wifiSsid", "wifiPassword", "wifiType"]
    case Vcard => ["vcardName", "vcardPhone", "vcardEmail", "vcardUrl", "vcardOrg", "vcardAddress"]
    case Text => ["textContent"]
  }

  /** The ordered fields of each type, one per declared id. The only select
      is the third wifi field, `wifiType`, offering WPA, WEP and nopass in
      that order; it is also the only field without a placeholder. */
  function Fields(t: QrType): (fs: seq<Field>)
    ensures |fs| == |Ids(t)| && forall i :: 0 <= i < |fs| ==> fs[i].id == Ids(t)[i]
    ensures forall i :: 0 <= i < |fs| ==> (fs[i].kind.Select? <==> t == Wifi && i == 2)
    ensures forall i :: 0 <= i < |fs| ==> (fs[i].placeholder.None? <==> fs[i].kind.Select?)
    ensures t == Wifi ==> fs[2].id == "wifiType" && fs[2].kind == Select(WifiEncryptions)
  {
    match t
    case Url => [
      Field("Website URL", UrlLine, "urlInput", Some("https://aravind-6.vercel.app"))]
    case Email => [
      Field("Email Address", EmailLine, "emailTo", Some("aravind@example.com")),
      Field("Subject", TextLine, "emailSubject", Some("Email Subject")),
      Field("Message", TextArea, "emailBody", Some("Email Body"))]
    case Phone => [
      Field("Phone Number", TelLine, "phoneNumber", Some("9876543210"))]
    case Sms => [
      Field("Phone Number", TelLine, "smsNumber", Some("9876543210")),
      Field("Message", TextArea, "smsMessage", Some("SMS Message"))]
    case WhatsApp => [
      Field("Phone Number", TelLine, "waNumber", Some("9876543217")),
      Field("Message", TextArea, "waMessage", Some("WhatsApp Message"))]
    case Wifi => [
      Field("Network Name (SSID)", TextLine, "wifiSsid", Some("Network Name")),
      Field("Password", PasswordLine, "wifiPassword", Some("Network Password")),
      Field("Encryption Type", Select(WifiEncryptions), "wifiType", None)]
    case Vcard => [
      Field("Full Name", TextLine, "vcardName", Some("Aravind")),
      Field("Phone", TelLine, "vcardPhone", Some("9807645312")),
      Field("Email", EmailLine, "vcardEmail", Some("aravind@example.com")),
      Field("Website", UrlLine, "vcardUrl", Some("https://aravind.com")),
      Field("Company", TextLine, "vcardOrg", Some("Company Name")),
      Field("Address", TextLine, "vcardAddress", Some("Street, City, Country"))]
    case Text => [
      Field("Text Content", TextArea, "textContent", Some("Enter your text here"))]
  }

  /** Every type has at least one field and no two fields of a type share an id. */
  lemma FieldsWellFormed(t: QrType)
    ensures |Fields(t)| >= 1
    ensures DistinctIds(Fields(t))
  {
  }

  /** The ids a type declares, as a set. */
  function IdSet(t: QrType): set<string> {
    set k | k in Ids(t)
  }

  /** The type that declares field id `k`, if any. */
  function OwnerOf(k: string): Option<QrType> {
    if k == "urlInput" then Some(Url)
    else if k in ["emailTo", "emailSubject", "emailBody"] then Some(Email)
    else if k == "phoneNumber" then Some(Phone)
    else if k in ["smsNumber", "smsMessage"] then Some(Sms)
    else if k in ["waNumber", "waMessage"] then Some(WhatsApp)
    else if k in ["wifiSsid", "wifiPassword", "wifiType"] then Some(Wifi)
    else if k in ["vcardName", "vcardPhone", "vcardEmail", "vcardUrl", "vcardOrg", "vcardAddress"] then Some(Vcard)
    else if k == "textContent" then Some(Text)
    else None
  }

  lemma OwnerOfDeclaredId(t: QrType, k: string)
    requires k in Ids(t)
    ensures OwnerOf(k) == Some(t)
  {
    match t
    case Url =>
    case Email =>
    case Phone =>
    case Sms =>
    case WhatsApp =>
    case Wifi =>
    case Vcard =>
    case Text =>
  }

  /** No id is declared by two different types, so a field map never mixes
      values of two types under one key. */
  lemma IdsDisjointAcrossTypes(t: QrType, u: QrType)
    requires t != u
    ensures IdSet(t) !! IdSet(u)
  {
    forall k | k in Ids(t)
      ensures k !in Ids(u)
    {
      OwnerOfDeclaredId(t, k);
      if k in Ids(u) {
        OwnerOfDeclaredId(u, k);
      }
    }
  }
}
