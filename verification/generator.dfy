/** One press of "Generate": read the active type's fields, format the
    payload, record the entry. The QR symbol itself is drawn by an external
    library and is not part of this model. */
module Generator {
  import opened Registry
  import Payloads
  import History

  /** Reads `inputs[id]` for every id of `ids`, in order, into a fresh map. */
  method ReadInputs(ids: seq<string>, inputs: map<string, string>) returns (data: map<string, string>)
    requires forall k :: k in ids ==> k in inputs
    ensures forall k :: k in data <==> k in ids
    ensures forall k :: k in data ==> data[k] == inputs[k]
  {
    data := map[];
    var i := 0;
    while i < |ids|
      invariant 0 <= i <= |ids|
      invariant forall k :: k in data <==> k in ids[..i]
      invariant forall k :: k in data ==> k in inputs && data[k] == inputs[k]
    {
      assert ids[..i + 1] == ids[..i] + [ids[i]];
      data := data[ids[i] := inputs[ids[i]]];
      i := i + 1;
    }
    assert ids[..i] == ids;
  }

  /** The field collection of `generateQRCode`: `inputs` is the page's input
      elements by id, and each declared field must have one, as the form
      built for `t` does. The result holds exactly the declared ids, each
      with the value read. */
  method CollectFieldValues(t: QrType, inputs: map<string, string>) returns (data: map<string, string>)
    requires forall k :: k in Ids(t) ==> k in inputs
    ensures data.Keys == IdSet(t)
    ensures forall k :: k in data ==> data[k] == inputs[k]
    ensures Payloads.HasFields(t, data)
  {
    data := ReadInputs(Ids(t), inputs);
  }

  /** `generateQRCode`: the values read, the payload handed to the encoder,
      and the history afterwards. `drawn` says whether the external QRCode
      constructor returned normally; when it throws, the rest of the handler
      is skipped and nothing is recorded. Otherwise the generation is recorded
      with the given colours and timestamp, and the recorded map formats to
      the same payload. */
  method GenerateQRCode(history: seq<History.Entry>, t: QrType, inputs: map<string, string>,
                        colors: History.Colors, timestamp: string, drawn: bool)
    returns (data: map<string, string>, payload: string, history': seq<History.Entry>)
    requires forall k :: k in Ids(t) ==> k in inputs
    ensures data.Keys == IdSet(t)
    ensures forall k :: k in data ==> data[k] == inputs[k]
    ensures Payloads.HasFields(t, data) && payload == Payloads.Format(t, data)
    ensures !drawn ==> history' == history
    ensures drawn ==> history' == History.AddToHistory(history, History.Entry(Name(t), data, colors, timestamp))
    ensures drawn ==> |history'| >= 1 && history'[0] == History.Entry(Name(t), data, colors, timestamp)
    ensures drawn ==> history'[1..] <= history
    ensures History.Bounded(history) ==> History.Bounded(history')
  {
    data := CollectFieldValues(t, inputs);
    payload := Payloads.Format(t, data);
    if drawn {
      history' := History.AddToHistory(history, History.Entry(Name(t), data, colors, timestamp));
    } else {
      history' := history;
    }
  }
}
