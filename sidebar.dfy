/** The document sidebar: file-name abbreviation and the list update after a deletion. */
module Sidebar {
  const DefaultMaxLength: int := 48
  const Ellipsis: string := "..."
  const DeletedAlert: string := "Document deleted successfully."
  const FailedAlert: string := "Failed to delete document. Please try again."

  /** A `substring` bound: clamped to `0..len`. */
  function ClampIndex(len: nat, k: int): (r: nat)
    ensures r <= len
    ensures 0 <= k <= len ==> r == k
  {
    if k < 0 then 0 else if k > len then len else k
  }

  /** `s.substring(start, end)`: both bounds clamped, then swapped if out of order. */
  function Substring(s: string, start: int, end: int): (r: string)
    ensures 0 <= start <= end <= |s| ==> r == s[start..end]
    ensures |r| <= |s|
  {
    var a, b := ClampIndex(|s|, start), ClampIndex(|s|, end);
    if a <= b then s[a..b] else s[b..a]
  }

  /** `abbreviateFileName(name, maxLength)`. */
  function AbbreviateFileName(name: string, maxLength: int): (r: string)
    ensures |name| <= maxLength ==> r == name
    ensures |name| > maxLength && maxLength >= 3 ==> r == name[..maxLength - 3] + Ellipsis
    ensures |name| > maxLength && maxLength < 3 ==> r == Ellipsis
  {
    if |name| <= maxLength then name else Substring(name, 0, maxLength - 3) + Ellipsis
  }

  /**
   * For `maxLength >= 3` the result fits: it is never longer than
   * `maxLength`, is exactly `maxLength` long when cut, and everything
   * before the ellipsis is a prefix of the name.
   */
  lemma AbbreviationFits(name: string, maxLength: int)
    requires maxLength >= 3
    ensures |AbbreviateFileName(name, maxLength)| <= maxLength
    ensures |name| > maxLength ==> |AbbreviateFileName(name, maxLength)| == maxLength
    ensures |name| > maxLength ==>
      var r := AbbreviateFileName(name, maxLength);
      r[..|r| - 3] == name[..|r| - 3] && r[|r| - 3..] == Ellipsis
  {
  }

  /** With the default limit a name of 49 or more characters is cut to 45 characters and `...`. */
  lemma DefaultAbbreviation(name: string)
    requires |name| > DefaultMaxLength
    ensures AbbreviateFileName(name, DefaultMaxLength) == name[..45] + Ellipsis
    ensures |AbbreviateFileName(name, DefaultMaxLength)| == 48
  {
  }

  /** `documents.filter(doc => doc !== documentId)`. */
  function RemoveDocument(documents: seq<string>, documentId: string): (r: seq<string>)
    ensures documentId !in r
    ensures forall d :: d != documentId ==> multiset(r)[d] == multiset(documents)[d]
    ensures forall d :: d in r ==> d in documents
  {
    if documents == [] then []
    else
      assert documents == [documents[0]] + documents[1..];
      if documents[0] == documentId then RemoveDocument(documents[1..], documentId)
      else [documents[0]] + RemoveDocument(documents[1..], documentId)
  }

  /** The filter works piecewise, so the remaining documents keep their relative order. */
  lemma {:induction false} RemoveDocumentConcat(a: seq<string>, b: seq<string>, documentId: string)
    ensures RemoveDocument(a + b, documentId) == RemoveDocument(a, documentId) + RemoveDocument(b, documentId)
  {
    if a == [] {
      assert a + b == b;
    } else {
      assert (a + b)[1..] == a[1..] + b;
      RemoveDocumentConcat(a[1..], b, documentId);
    }
  }

  /** Deleting an id that is not listed leaves the list as it is. */
  lemma {:induction false} RemoveAbsentDocument(documents: seq<string>, documentId: string)
    requires documentId !in documents
    ensures RemoveDocument(documents, documentId) == documents
  {
    if documents != [] {
      RemoveAbsentDocument(documents[1..], documentId);
    }
  }

  /** The list and the alert after `deleteDocument`. */
  datatype DeleteOutcome = DeleteOutcome(documents: seq<string>, alert: string)

  /**
   * `deleteDocument`: `responseOk` is false when the request is rejected or
   * the response is not ok; the throw then skips the list update.
   */
  function DeleteDocument(documents: seq<string>, documentId: string, responseOk: bool): (r: DeleteOutcome)
    ensures !responseOk ==> r.documents == documents && r.alert == FailedAlert
    ensures responseOk ==> r.documents == RemoveDocument(documents, documentId) && r.alert == DeletedAlert
  {
    if responseOk then DeleteOutcome(RemoveDocument(documents, documentId), DeletedAlert)
    else DeleteOutcome(documents, FailedAlert)
  }

  /** Deleting twice is deleting once: the second filter finds nothing to remove. */
  lemma DeleteTwice(documents: seq<string>, documentId: string)
    ensures DeleteDocument(DeleteDocument(documents, documentId, true).documents, documentId, true).documents
         == DeleteDocument(documents, documentId, true).documents
  {
    RemoveAbsentDocument(RemoveDocument(documents, documentId), documentId);
  }
}
