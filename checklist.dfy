/** The required-documents checklist of the banking page: the set of
    checked document ids, the toggle that flips one of them, and the counts
    and completion badge computed from the set. */
module Checklist {

  /** A checklist entry; its label, icon and description are display text
      and are left out. */
  datatype DocumentItem = DocumentItem(id: string, required: bool)

  const PrimaryDocuments: seq<DocumentItem> := [
    DocumentItem("passport", true),
    DocumentItem("i20", true),
    DocumentItem("ds2019", true),
    DocumentItem("visa", true),
    DocumentItem("i94", true)
  ]

  const SecondaryDocuments: seq<DocumentItem> := [
    DocumentItem("address", false),
    DocumentItem("enrollment", false),
    DocumentItem("income", false)
  ]

  /** `[...primaryDocuments, ...secondaryDocuments]` */
  function AllDocuments(): seq<DocumentItem> {
    PrimaryDocuments + SecondaryDocuments
  }

  /** The ids a checkbox is wired to. */
  function Ids(docs: seq<DocumentItem>): (ids: set<string>)
    ensures forall d :: d in docs ==> d.id in ids
    ensures forall id :: id in ids ==> exists d :: d in docs && d.id == id
  {
    if docs == [] then {} else {docs[0].id} + Ids(docs[1..])
  }

  /** `docs.filter(item => item.required)` */
  function RequiredOf(docs: seq<DocumentItem>): (req: seq<DocumentItem>)
    ensures |req| <= |docs|
    ensures forall d :: d in req <==> d in docs && d.required
  {
    if docs == [] then []
    else (if docs[0].required then [docs[0]] else []) + RequiredOf(docs[1..])
  }

  /** `docs.filter(item => checked.has(item.id)).length` */
  function CountChecked(docs: seq<DocumentItem>, checked: set<string>): (n: nat)
    ensures n <= |docs|
  {
    if docs == [] then 0
    else (if docs[0].id in checked then 1 else 0) + CountChecked(docs[1..], checked)
  }

  /** allRequired */
  function AllRequired(): seq<DocumentItem> {
    RequiredOf(PrimaryDocuments)
  }

  /** requiredChecked */
  function RequiredChecked(checked: set<string>): nat {
    CountChecked(AllRequired(), checked)
  }

  /** totalChecked */
  function TotalChecked(checked: set<string>): nat {
    |checked|
  }

  /** Every primary document is required, so allRequired is the whole
      primary list, of length 5, and there are 8 items in all. */
  lemma AllPrimaryRequired()
    ensures AllRequired() == PrimaryDocuments
    ensures |AllRequired()| == 5 && |AllDocuments()| == 8
  {
    RequiredOfAll(PrimaryDocuments);
  }

  lemma {:induction false} RequiredOfAll(docs: seq<DocumentItem>)
    requires forall d :: d in docs ==> d.required
    ensures RequiredOf(docs) == docs
  {
    if docs != [] {
      assert docs[0] in docs;
      RequiredOfAll(docs[1..]);
    }
  }

  /** At most the five required documents can be counted as checked. */
  lemma RequiredCheckedBound(checked: set<string>)
    ensures RequiredChecked(checked) <= 5
  {
    AllPrimaryRequired();
  }

  /** All of a list's documents are counted exactly when each id is
      checked. */
  lemma {:induction false} CountAll(docs: seq<DocumentItem>, checked: set<string>)
    ensures CountChecked(docs, checked) == |docs| <==> forall d :: d in docs ==> d.id in checked
  {
    if docs != [] {
      CountAll(docs[1..], checked);
      if docs[0].id !in checked {
        assert docs[0] in docs;
      }
    }
  }

  /** What the badge says. */
  function Badge(checked: set<string>): string {
    if RequiredChecked(checked) == |AllRequired()| then "Complete" else "Incomplete"
  }

  /** Whether the completion message is shown. */
  predicate ShowsCompletion(checked: set<string>) {
    RequiredChecked(checked) == |AllRequired()|
  }

  /** The badge reads "Complete" and the completion message appears exactly
      when the passport, I-20, DS-2019, visa and I-94 are all checked;
      the secondary documents play no part. */
  lemma CompleteWhenRequiredChecked(checked: set<string>)
    ensures Badge(checked) == "Complete" <==> ShowsCompletion(checked)
    ensures ShowsCompletion(checked) <==>
      "passport" in checked && "i20" in checked && "ds2019" in checked && "visa" in checked && "i94" in checked
  {
    AllPrimaryRequired();
    CountAll(PrimaryDocuments, checked);
    PrimaryIdsChecked(checked);
  }

  lemma PrimaryIdsChecked(checked: set<string>)
    ensures (forall d :: d in PrimaryDocuments ==> d.id in checked) <==>
      "passport" in checked && "i20" in checked && "ds2019" in checked && "visa" in checked && "i94" in checked
  {
    var p := PrimaryDocuments;
    assert p[0].id == "passport" && p[1].id == "i20" && p[2].id == "ds2019" && p[3].id == "visa" && p[4].id == "i94";
    assert p[0] in p && p[1] in p && p[2] in p && p[3] in p && p[4] in p;
    assert forall d :: d in p ==> d == p[0] || d == p[1] || d == p[2] || d == p[3] || d == p[4];
  }

  /** `new Set(checked)` with `id` deleted when present and added otherwise. */
  function Toggled(checked: set<string>, id: string): (s: set<string>)
    ensures id in s <==> id !in checked
    ensures forall x :: x != id ==> (x in s <==> x in checked)
  {
    if id in checked then checked - {id} else checked + {id}
  }

  /** Toggling the same id twice restores the set. */
  lemma ToggleTwice(checked: set<string>, id: string)
    ensures Toggled(Toggled(checked, id), id) == checked
  {
    var once := Toggled(checked, id);
    var twice := Toggled(once, id);
    assert forall x :: x in twice <==> x in checked;
  }

  /** A set no larger than the ids of a list has at most as many
      elements as the list. */
  lemma {:induction false} IdsBound(docs: seq<DocumentItem>)
    ensures |Ids(docs)| <= |docs|
  {
    if docs != [] {
      IdsBound(docs[1..]);
    }
  }

  /** Only listed documents can be checked, so at most 8 are. */
  lemma CheckedBound(checked: set<string>)
    requires checked <= Ids(AllDocuments())
    ensures TotalChecked(checked) <= |AllDocuments()| == 8
  {
    var all := AllDocuments();
    assert |all| == 8;
    IdsBound(all);
    SubsetSize(checked, Ids(all));
  }

  lemma SubsetSize(a: set<string>, b: set<string>)
    requires a <= b
    ensures |a| <= |b|
  {
    assert b == a + (b - a);
  }

  /** The component's state: the checked ids. Each checkbox calls
      toggleItem with its own item's id, so every checked id belongs to a
      listed document. */
  class ChecklistState {
    var checked: set<string>

    ghost predicate Valid()
      reads this
    {
      checked <= Ids(AllDocuments())
    }

    /** `useState(new Set())` */
    constructor()
      ensures checked == {} && Valid()
    {
      checked := {};
    }

    /** toggleItem */
    method ToggleItem(id: string)
      requires Valid() && id in Ids(AllDocuments())
      modifies this
      ensures Valid()
      ensures checked == Toggled(old(checked), id)
    {
      var newChecked := checked;
      if id in newChecked {
        newChecked := newChecked - {id};
      } else {
        newChecked := newChecked + {id};
      }
      checked := newChecked;
    }
  }
}
