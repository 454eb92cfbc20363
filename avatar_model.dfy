/**
 * The avatar collection as the service sees it through the `Avatar` model: a sequence of
 * saved documents in natural order, with `findOne({ accountId })` and
 * `deleteOne({ accountId })` acting on the first document that matches. The schema declares
 * no unique index on `accountId`, so "at most one record per account" is a property of the
 * sequence that the service's own checks have to keep.
 */
module AvatarModel {
  import opened Wrappers
  import opened AvatarSchema

  /** Some document of the collection belongs to `accountId`. */
  predicate HasAccount(s: seq<AvatarDoc>, accountId: string)
  {
    exists i :: 0 <= i < |s| && s[i].accountId == accountId
  }

  /** At most one document per account. */
  predicate UniqueAccounts(s: seq<AvatarDoc>)
  {
    forall i, j :: 0 <= i < j < |s| ==> s[i].accountId != s[j].accountId
  }

  /** Position `i` holds the first document of `accountId` in natural order. */
  predicate FirstMatch(s: seq<AvatarDoc>, accountId: string, i: nat)
  {
    i < |s| && s[i].accountId == accountId && forall j :: 0 <= j < i ==> s[j].accountId != accountId
  }

  /** The position `findOne({ accountId })` returns: the first match, or none when nothing matches. */
  function FindFirst(s: seq<AvatarDoc>, accountId: string): (r: Option<nat>)
    ensures r.None? <==> !HasAccount(s, accountId)
    ensures r.Some? ==> r.value < |s| && s[r.value].accountId == accountId
    ensures r.Some? ==> forall j :: 0 <= j < r.value ==> s[j].accountId != accountId
  {
    if |s| == 0 then None
    else if s[0].accountId == accountId then Some(0)
    else
      match FindFirst(s[1..], accountId)
      case None =>
        assert !HasAccount(s, accountId) by {
          forall i | 0 <= i < |s| ensures s[i].accountId != accountId {
            if i > 0 { assert s[1..][i - 1] == s[i]; }
          }
        }
        None
      case Some(i) => Some(i + 1)
  }

  /** The document `findOne({ accountId })` returns. */
  function Lookup(s: seq<AvatarDoc>, accountId: string): Option<AvatarDoc>
  {
    match FindFirst(s, accountId)
    case None => None
    case Some(i) => Some(s[i])
  }

  /**
   * `deleteOne({ accountId })`: the first matching document is removed, the others stay
   * in their order; with no match the collection is unchanged.
   */
  function DeleteOne(s: seq<AvatarDoc>, accountId: string): (r: seq<AvatarDoc>)
    ensures !HasAccount(s, accountId) ==> r == s
    ensures HasAccount(s, accountId) ==> |r| == |s| - 1
    ensures HasAccount(s, accountId) ==>
      exists i :: 0 <= i < |s| && s[i].accountId == accountId
        && (forall j :: 0 <= j < i ==> s[j].accountId != accountId)
        && r == s[..i] + s[i + 1..]
    ensures forall k :: 0 <= k < |r| ==> r[k] in s
  {
    match FindFirst(s, accountId)
    case None => s
    case Some(i) =>
      var r := s[..i] + s[i + 1..];
      assert forall k :: 0 <= k < |r| ==> r[k] == (if k < i then s[k] else s[k + 1]);
      r
  }

  /** In a collection without duplicates, the document of an account is found at its only position. */
  lemma FindFirstUnique(s: seq<AvatarDoc>, i: nat)
    requires UniqueAccounts(s) && i < |s|
    ensures FindFirst(s, s[i].accountId) == Some(i)
  {
  }

  /** Appending the document of an absent account keeps the collection free of duplicates. */
  lemma AppendKeepsUnique(s: seq<AvatarDoc>, d: AvatarDoc)
    requires UniqueAccounts(s) && !HasAccount(s, d.accountId)
    ensures UniqueAccounts(s + [d])
  {
  }

  /** Replacing a document by one of the same account keeps the collection free of duplicates. */
  lemma ReplaceKeepsUnique(s: seq<AvatarDoc>, i: nat, d: AvatarDoc)
    requires UniqueAccounts(s) && i < |s| && s[i].accountId == d.accountId
    ensures UniqueAccounts(s[i := d])
  {
  }

  /** Removing one position keeps the collection free of duplicates. */
  lemma RemoveAtKeepsUnique(s: seq<AvatarDoc>, i: nat)
    requires UniqueAccounts(s) && i < |s|
    ensures UniqueAccounts(s[..i] + s[i + 1..])
  {
    var r := s[..i] + s[i + 1..];
    forall p, q | 0 <= p < q < |r| ensures r[p].accountId != r[q].accountId {
      var p' := if p < i then p else p + 1;
      var q' := if q < i then q else q + 1;
      assert r[p] == s[p'] && r[q] == s[q'];
    }
  }

  /** Removing the only document of an account leaves no document of it behind. */
  lemma RemoveAtRemovesAccount(s: seq<AvatarDoc>, i: nat)
    requires UniqueAccounts(s) && i < |s|
    ensures !HasAccount(s[..i] + s[i + 1..], s[i].accountId)
  {
    var r := s[..i] + s[i + 1..];
    forall k | 0 <= k < |r| ensures r[k].accountId != s[i].accountId {
      var k' := if k < i then k else k + 1;
      assert r[k] == s[k'];
    }
  }

  /** Deleting keeps the collection free of duplicates. */
  lemma DeleteKeepsUnique(s: seq<AvatarDoc>, accountId: string)
    requires UniqueAccounts(s)
    ensures UniqueAccounts(DeleteOne(s, accountId))
  {
    match FindFirst(s, accountId)
    case None =>
    case Some(i) => RemoveAtKeepsUnique(s, i);
  }

  /** In a collection without duplicates, deleting an account leaves no document of it behind. */
  lemma DeleteRemovesAccount(s: seq<AvatarDoc>, accountId: string)
    requires UniqueAccounts(s)
    ensures !HasAccount(DeleteOne(s, accountId), accountId)
  {
    match FindFirst(s, accountId)
    case None =>
    case Some(i) => RemoveAtRemovesAccount(s, i);
  }

  /** In a collection without duplicates, deleting twice is the same as deleting once. */
  lemma DeleteIdempotent(s: seq<AvatarDoc>, accountId: string)
    requires UniqueAccounts(s)
    ensures DeleteOne(DeleteOne(s, accountId), accountId) == DeleteOne(s, accountId)
  {
    DeleteRemovesAccount(s, accountId);
  }

  /**
   * Without the uniqueness the service keeps, `deleteOne` is not idempotent: with two
   * documents of one account, a second delete removes the second document.
   */
  lemma DeleteTwiceWithDuplicates(d: AvatarDoc)
    ensures DeleteOne(DeleteOne([d, d], d.accountId), d.accountId) != DeleteOne([d, d], d.accountId)
  {
  }

  /** Appending changes what `findOne` returns only for the appended, previously absent account. */
  lemma LookupAfterAppend(s: seq<AvatarDoc>, d: AvatarDoc, accountId: string)
    ensures Lookup(s + [d], accountId) ==
      if HasAccount(s, accountId) then Lookup(s, accountId)
      else if accountId == d.accountId then Some(d)
      else None
  {
    var t := s + [d];
    match FindFirst(s, accountId)
    case Some(i) =>
      assert t[i] == s[i];
      assert forall j :: 0 <= j < i ==> t[j] == s[j];
      FirstMatchIsFindFirst(t, accountId, i);
    case None =>
      assert forall j :: 0 <= j < |s| ==> t[j] == s[j];
      if accountId == d.accountId {
        assert t[|s|] == d;
        FirstMatchIsFindFirst(t, accountId, |s|);
      } else {
        assert !HasAccount(t, accountId);
      }
  }

  /** A position that matches and is preceded by no match is the one `findOne` returns. */
  lemma FirstMatchIsFindFirst(s: seq<AvatarDoc>, accountId: string, i: nat)
    requires i < |s| && s[i].accountId == accountId
    requires forall j :: 0 <= j < i ==> s[j].accountId != accountId
    ensures FindFirst(s, accountId) == Some(i)
  {
  }

  /**
   * Replacing the document `findOne` returned by one of the same account changes what
   * `findOne` returns for that account only.
   */
  lemma LookupAfterReplace(s: seq<AvatarDoc>, i: nat, d: AvatarDoc, accountId: string)
    requires FindFirst(s, d.accountId) == Some(i)
    ensures Lookup(s[i := d], accountId) ==
      if accountId == d.accountId then Some(d) else Lookup(s, accountId)
  {
    var t := s[i := d];
    if accountId == d.accountId {
      FirstMatchIsFindFirst(t, accountId, i);
    } else {
      match FindFirst(s, accountId)
      case Some(k) =>
        FirstMatchIsFindFirst(t, accountId, k);
      case None =>
        assert !HasAccount(t, accountId);
    }
  }

  /** Removing a document of another account leaves what `findOne` returns for `other` unchanged. */
  lemma LookupAfterRemoveAt(s: seq<AvatarDoc>, i: nat, other: string)
    requires i < |s| && s[i].accountId != other
    ensures Lookup(s[..i] + s[i + 1..], other) == Lookup(s, other)
  {
    var r := s[..i] + s[i + 1..];
    assert forall k :: 0 <= k < |r| ==> r[k] == (if k < i then s[k] else s[k + 1]);
    match FindFirst(s, other)
    case Some(k) =>
      if k < i {
        assert r[k] == s[k];
        FirstMatchIsFindFirst(r, other, k);
      } else {
        assert r[k - 1] == s[k];
        FirstMatchIsFindFirst(r, other, k - 1);
      }
    case None =>
      assert !HasAccount(r, other);
  }

  /** Deleting one account leaves what `findOne` returns for every other account unchanged. */
  lemma LookupAfterDelete(s: seq<AvatarDoc>, accountId: string, other: string)
    requires other != accountId
    ensures Lookup(DeleteOne(s, accountId), other) == Lookup(s, other)
  {
    match FindFirst(s, accountId)
    case None =>
    case Some(i) =>
      LookupAfterRemoveAt(s, i, other);
  }
}
