/** The stored document record and its conversion to a Mongo-ready value
    (`Document.to_mongo`): the dataclass becomes a dictionary, its top-level
    `id` entry is dropped, and the value is normalised recursively (numpy
    scalars unwrapped, dictionaries rebuilt with the same keys, lists and
    tuples turned into lists). */
module DocumentModel {
  import opened Common

  /** The scalar payload of a Python or numpy scalar. */
  datatype Scalar = IntValue(i: int) | RealValue(r: real) | StrValue(s: string) | BoolValue(b: bool) | NoneValue

  /** A Python value as far as the normaliser distinguishes it; `Opaque`
      stands for anything else (a datetime, say), identified by a tag. */
  datatype Value =
    | Plain(scalar: Scalar)
    | NumpyScalar(item: Scalar)
    | Dict(entries: seq<(string, Value)>)
    | List(items: seq<Value>)
    | Tuple(items: seq<Value>)
    | Opaque(tag: string)

  function Keys(entries: seq<(string, Value)>): (r: seq<string>)
    ensures |r| == |entries| && forall i :: 0 <= i < |entries| ==> r[i] == entries[i].0
  {
    seq(|entries|, i requires 0 <= i < |entries| => entries[i].0)
  }

  /** No numpy scalar and no tuple anywhere inside. */
  predicate Clean(v: Value)
  {
    match v
    case NumpyScalar(_) => false
    case Tuple(_) => false
    case Dict(es) => forall i :: 0 <= i < |es| ==> Clean(es[i].1)
    case List(xs) => forall i :: 0 <= i < |xs| ==> Clean(xs[i])
    case _ => true
  }

  /** `normalize`. */
  function Normalize(v: Value): (r: Value)
    ensures Clean(r)
    ensures v.Dict? <==> r.Dict?
    ensures v.Dict? ==> Keys(r.entries) == Keys(v.entries)
    ensures (v.List? || v.Tuple?) <==> r.List?
    ensures (v.List? || v.Tuple?) ==> |r.items| == |v.items|
    ensures v.NumpyScalar? ==> r == Plain(v.item)
    ensures v.Plain? || v.Opaque? ==> r == v
  {
    match v
    case NumpyScalar(item) => Plain(item)
    case Dict(es) => Dict(NormalizeEntries(es))
    case List(xs) => List(NormalizeItems(xs))
    case Tuple(xs) => List(NormalizeItems(xs))
    case _ => v
  }

  function NormalizeEntries(es: seq<(string, Value)>): (r: seq<(string, Value)>)
    ensures |r| == |es| && Keys(r) == Keys(es)
    ensures forall i :: 0 <= i < |r| ==> Clean(r[i].1)
    decreases es
  {
    if |es| == 0 then []
    else
      assert es[0].1 < es[0];
      [(es[0].0, Normalize(es[0].1))] + NormalizeEntries(es[1..])
  }

  lemma {:induction false} NormalizeEntriesAt(es: seq<(string, Value)>, i: nat)
    requires i < |es|
    ensures NormalizeEntries(es)[i] == (es[i].0, Normalize(es[i].1))
  {
    if i > 0 {
      NormalizeEntriesAt(es[1..], i - 1);
    }
  }

  function NormalizeItems(xs: seq<Value>): (r: seq<Value>)
    ensures |r| == |xs|
    ensures forall i :: 0 <= i < |xs| ==> r[i] == Normalize(xs[i])
    decreases xs
  {
    if |xs| == 0 then [] else [Normalize(xs[0])] + NormalizeItems(xs[1..])
  }

  /** A clean value is left as it is. */
  lemma {:induction false} NormalizeClean(v: Value)
    requires Clean(v)
    ensures Normalize(v) == v
    decreases v
  {
    match v
    case Dict(es) =>
      forall i | 0 <= i < |es| ensures NormalizeEntries(es)[i] == es[i] {
        assert es[i].1 < es[i];
        NormalizeClean(es[i].1);
        NormalizeEntriesAt(es, i);
      }
      assert NormalizeEntries(es) == es;
    case List(xs) =>
      forall i | 0 <= i < |xs| ensures Normalize(xs[i]) == xs[i] {
        NormalizeClean(xs[i]);
      }
      assert NormalizeItems(xs) == xs;
    case _ =>
  }

  /** Normalising twice is normalising once. */
  lemma NormalizeIdempotent(v: Value)
    ensures Normalize(Normalize(v)) == Normalize(v)
  {
    NormalizeClean(Normalize(v));
  }

  /** The stored record; dates are integer timestamps. */
  datatype Document = Document(
    id: Option<string>, userId: string, docTypeId: string, metadata: seq<(string, Value)>,
    fileHash: string, isValid: bool, validatedAt: Option<int>)

  function OptStr(o: Option<string>): Value
  {
    match o
    case None => Plain(NoneValue)
    case Some(s) => Plain(StrValue(s))
  }

  function OptTime(o: Option<int>): Value
  {
    match o
    case None => Plain(NoneValue)
    case Some(t) => Opaque("datetime")
  }

  /** `asdict(self)`: the fields in declaration order. */
  function AsDict(d: Document): (r: seq<(string, Value)>)
    ensures |r| == 7 && r[0].0 == "id" && Keys(r[1..]) == StoredKeys
  {
    [("id", OptStr(d.id))] + StoredFields(d)
  }

  /** The fields other than `id`. */
  function StoredFields(d: Document): (r: seq<(string, Value)>)
    ensures Keys(r) == StoredKeys
  {
    [("user_id", Plain(StrValue(d.userId))), ("doc_type_id", Plain(StrValue(d.docTypeId))),
     ("metadata", Dict(d.metadata)), ("file_hash", Plain(StrValue(d.fileHash))), ("is_valid", Plain(BoolValue(d.isValid))),
     ("validated_at", OptTime(d.validatedAt))]
  }

  /** `dict.pop(key, None)`: every entry with the key removed. */
  function Pop(es: seq<(string, Value)>, key: string): (r: seq<(string, Value)>)
    ensures forall e :: e in r <==> e in es && e.0 != key
    ensures |r| <= |es|
  {
    if |es| == 0 then []
    else
      assert es == [es[0]] + es[1..];
      (if es[0].0 == key then [] else [es[0]]) + Pop(es[1..], key)
  }

  /** The keys of a stored document. */
  const StoredKeys: seq<string> := ["user_id", "doc_type_id", "metadata", "file_hash", "is_valid", "validated_at"]

  /** `to_mongo`. */
  function ToMongo(d: Document): (r: Value)
    ensures r.Dict? && Clean(r)
  {
    Normalize(Dict(Pop(AsDict(d), "id")))
  }

  /** Only the top-level `id` goes: the other fields keep their order, and
      the metadata keeps all its keys, including an `id` of its own, with
      its values normalised. */
  lemma ToMongoEntries(d: Document)
    ensures Keys(ToMongo(d).entries) == StoredKeys
    ensures ToMongo(d).entries[2] == ("metadata", Dict(NormalizeEntries(d.metadata)))
    ensures Keys(NormalizeEntries(d.metadata)) == Keys(d.metadata)
  {
    PopId(d);
    NormalizeEntriesAt(AsDict(d)[1..], 2);
  }

  lemma PopId(d: Document)
    ensures Pop(AsDict(d), "id") == AsDict(d)[1..]
    ensures Keys(AsDict(d)[1..]) == StoredKeys
    ensures AsDict(d)[1..][2] == ("metadata", Dict(d.metadata))
  {
    var data := AsDict(d);
    assert data[1..] == StoredFields(d);
    assert forall i :: 0 <= i < |StoredKeys| ==> |StoredKeys[i]| > 2;
    PopLeading(data, "id");
  }

  /** Popping a key held only by the first entry drops that entry. */
  lemma {:induction false} PopLeading(es: seq<(string, Value)>, key: string)
    requires |es| > 0 && es[0].0 == key && forall i :: 1 <= i < |es| ==> es[i].0 != key
    ensures Pop(es, key) == es[1..]
  {
    PopAbsent(es[1..], key);
  }

  lemma {:induction false} PopAbsent(es: seq<(string, Value)>, key: string)
    requires forall i :: 0 <= i < |es| ==> es[i].0 != key
    ensures Pop(es, key) == es
  {
    if |es| > 0 {
      PopAbsent(es[1..], key);
      assert [es[0]] + es[1..] == es;
    }
  }
}
