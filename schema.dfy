/**
 * The ShortUrl document shape (server/model/ShortUrl.js) and the constraints
 * the store enforces on a collection of such documents.
 */
module ShortUrlSchema {

  datatype Option<+T> = None | Some(value: T)

  /** A clock reading; the model never inspects it, it only stores it. */
  type Time = nat

  /**
   * One stored document. `clicks` defaults to 0 and `lastClickedAt` is absent
   * until the first redirect (or reset to null by an update that changes url).
   */
  datatype Record = Record(code: string, url: string, clicks: nat, lastClickedAt: Option<Time>)

  /** The document the store creates from `{ url, code }`: schema defaults filled in. */
  function NewRecord(code: string, url: string): (r: Record)
    ensures r.code == code && r.url == url
    ensures r.clicks == 0 && r.lastClickedAt == None
  {
    Record(code, url, 0, None)
  }

  /** `required: true` on both code and url: an empty string fails validation. */
  predicate HasRequiredFields(r: Record) {
    r.code != "" && r.url != ""
  }

  /** `unique: true` on code. */
  predicate UniqueCodes(t: seq<Record>) {
    forall i, j :: 0 <= i < j < |t| ==> t[i].code != t[j].code
  }

  /** `unique: true` on url. */
  predicate UniqueUrls(t: seq<Record>) {
    forall i, j :: 0 <= i < j < |t| ==> t[i].url != t[j].url
  }

  /** Everything the schema demands of the whole collection. */
  predicate ValidTable(t: seq<Record>) {
    && (forall i :: 0 <= i < |t| ==> HasRequiredFields(t[i]))
    && UniqueCodes(t)
    && UniqueUrls(t)
  }

  predicate HasCode(t: seq<Record>, code: string) {
    exists i :: 0 <= i < |t| && t[i].code == code
  }

  /** `findOne({ url })` is truthy. */
  predicate HasUrl(t: seq<Record>, url: string) {
    exists i :: 0 <= i < |t| && t[i].url == url
  }

  /** `findOne({ code })`: the position of the first record holding `code`. */
  function FindCode(t: seq<Record>, code: string): (r: Option<nat>)
    ensures r.Some? <==> HasCode(t, code)
    ensures r.Some? ==> r.value < |t| && t[r.value].code == code
    ensures r.Some? ==> forall i :: 0 <= i < r.value ==> t[i].code != code
  {
    FindCodeFrom(t, code, 0)
  }

  function FindCodeFrom(t: seq<Record>, code: string, from: nat): (r: Option<nat>)
    requires from <= |t|
    ensures r.Some? <==> exists i :: from <= i < |t| && t[i].code == code
    ensures r.Some? ==> from <= r.value < |t| && t[r.value].code == code
    ensures r.Some? ==> forall i :: from <= i < r.value ==> t[i].code != code
    decreases |t| - from
  {
    if from == |t| then None
    else if t[from].code == code then Some(from)
    else FindCodeFrom(t, code, from + 1)
  }

  /** In a valid table a code picks out exactly one record. */
  lemma CodeIdentifiesRecord(t: seq<Record>, i: nat, j: nat)
    requires ValidTable(t)
    requires i < |t| && j < |t| && t[i].code == t[j].code
    ensures i == j
  {
  }

  /** Appending a record with a fresh code and a fresh url keeps the table valid. */
  lemma InsertKeepsValid(t: seq<Record>, r: Record)
    requires ValidTable(t) && HasRequiredFields(r)
    requires !HasCode(t, r.code) && !HasUrl(t, r.url)
    ensures ValidTable(t + [r])
  {
    var t' := t + [r];
    forall i, j | 0 <= i < j < |t'|
      ensures t'[i].code != t'[j].code && t'[i].url != t'[j].url
    {
      if j == |t| {
        assert t'[i] == t[i];
      }
    }
  }

  /** Removing the record at position i keeps the table valid. */
  lemma RemoveKeepsValid(t: seq<Record>, i: nat)
    requires ValidTable(t) && i < |t|
    ensures ValidTable(t[..i] + t[i + 1..])
  {
    var t' := t[..i] + t[i + 1..];
    assert forall a :: 0 <= a < |t'| ==> t'[a] == t[if a < i then a else a + 1];
  }

  /**
   * Replacing the record at position i keeps the table valid when its code and
   * url are either unchanged or not held by any other record.
   */
  lemma ReplaceKeepsValid(t: seq<Record>, i: nat, r: Record)
    requires ValidTable(t) && i < |t| && HasRequiredFields(r)
    requires r.code == t[i].code || !HasCode(t, r.code)
    requires r.url == t[i].url || !HasUrl(t, r.url)
    ensures ValidTable(t[i := r])
  {
    var t' := t[i := r];
    forall a, b | 0 <= a < b < |t'|
      ensures t'[a].code != t'[b].code && t'[a].url != t'[b].url
    {
      if a != i && b != i {
        assert t'[a] == t[a] && t'[b] == t[b];
      } else if a == i {
        assert t'[b] == t[b];
        assert t[a].code != t[b].code && t[a].url != t[b].url;
      } else {
        assert t'[a] == t[a];
        assert t[a].code != t[b].code && t[a].url != t[b].url;
      }
    }
  }
}
