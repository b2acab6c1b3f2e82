/** Approval instances: who may see one, its attachments, and what a keyword search looks at. */
module Approvals {
  import opened Domain
  import opened Text

  datatype Attachment = Attachment(fileId: string, fileName: string, size: int)

  datatype Approval = Approval(
    instance: string,
    businessId: string,
    title: string,
    createTime: string,
    formTexts: seq<string>,
    originator: string,
    approvers: seq<string>,
    copied: seq<string>,
    tasks: seq<string>,
    attachments: seq<Attachment>)
  {
    predicate CanAccess(user: string, administrators: set<string>) {
      && user != ""
      && (user in administrators || originator == user || user in approvers || user in copied || user in tasks)
    }

    /** The first attachment with the ID; an empty ID finds nothing. */
    function FindAttachment(fileId: string): (found: Option<Attachment>)
      ensures found.Some? ==> IsFirst(attachments, found.value, fileId)
      ensures found.None? <==> fileId == "" || forall i :: 0 <= i < |attachments| ==> attachments[i].fileId != fileId
    {
      if fileId == "" then None else FindIn(attachments, fileId)
    }

    /** `fold` is the lower-case form of a string; form texts are the names and values of the form. */
    predicate MatchesKeyword(fold: string -> string, keyword: string) {
      || Contains(fold(businessId), fold(keyword))
      || Contains(fold(title), fold(keyword))
      || exists i | 0 <= i < |formTexts| :: Contains(fold(formTexts[i]), fold(keyword))
    }
  }

  function Members(all: seq<string>): set<string> {
    set s | s in all
  }

  /** Those who take part in the approval: its originator, its approvers, those copied in and those with a task. */
  function Participants(approval: Approval): set<string> {
    {approval.originator} + Members(approval.approvers) + Members(approval.copied) + Members(approval.tasks)
  }

  /** Administrators and those who take part have access, and nobody without a user ID. */
  lemma {:induction false} WhoHasAccess(approval: Approval, administrators: set<string>, user: string)
    ensures approval.CanAccess(user, administrators)
       <==> user in Participants(approval) + administrators - {""}
  {
  }

  /** What a keyword is looked for in. */
  function Texts(approval: Approval): seq<string> {
    [approval.businessId, approval.title] + approval.formTexts
  }

  /** In one of the approval's texts the keyword occurs, both in lower case. */
  ghost predicate Mentions(approval: Approval, fold: string -> string, keyword: string) {
    exists i, a, b :: 0 <= i < |Texts(approval)| && fold(Texts(approval)[i]) == a + fold(keyword) + b
  }

  lemma {:induction false} WhatMatches(approval: Approval, fold: string -> string, keyword: string)
    ensures approval.MatchesKeyword(fold, keyword) <==> Mentions(approval, fold, keyword)
  {
    var texts := Texts(approval);
    forall i | 0 <= i < |texts|
      ensures Contains(fold(texts[i]), fold(keyword)) <==> exists a, b :: fold(texts[i]) == a + fold(keyword) + b
    {
      ContainsIff(fold(texts[i]), fold(keyword));
    }
    assert texts[0] == approval.businessId && texts[1] == approval.title;
    assert forall i :: 0 <= i < |approval.formTexts| ==> texts[i + 2] == approval.formTexts[i];
    if approval.MatchesKeyword(fold, keyword) {
      var i :| 0 <= i < |texts| && Contains(fold(texts[i]), fold(keyword));
      var a, b :| fold(texts[i]) == a + fold(keyword) + b;
    }
    if Mentions(approval, fold, keyword) {
      var i, a, b :| 0 <= i < |texts| && fold(texts[i]) == a + fold(keyword) + b;
      if i >= 2 { assert approval.formTexts[i - 2] == texts[i]; }
    }
  }

  /** The attachment has the ID, and none before it has. */
  predicate IsFirst(attachments: seq<Attachment>, attachment: Attachment, fileId: string) {
    attachment.fileId == fileId
    && exists i | 0 <= i < |attachments| ::
         attachments[i] == attachment && forall j :: 0 <= j < i ==> attachments[j].fileId != fileId
  }

  function FindIn(attachments: seq<Attachment>, fileId: string): (found: Option<Attachment>)
    ensures found.Some? ==> IsFirst(attachments, found.value, fileId)
    ensures found.None? <==> forall i :: 0 <= i < |attachments| ==> attachments[i].fileId != fileId
  {
    if attachments == [] then None
    else if attachments[0].fileId == fileId then Some(attachments[0])
    else
      var found := FindIn(attachments[1..], fileId);
      assert found.Some? ==> IsFirst(attachments, found.value, fileId) by {
        if found.Some? {
          var i :| 0 <= i < |attachments| - 1 && attachments[1..][i] == found.value
                   && forall j :: 0 <= j < i ==> attachments[1..][j].fileId != fileId;
          assert attachments[i + 1] == found.value;
          assert forall j :: 0 < j < i + 1 ==> attachments[j] == attachments[1..][j - 1];
        }
      }
      found
  }
}
