/**
 * The adapter from a book's OPDS entry to the data the book editor needs: its title and its
 * hide, restore and edit links.
 */
module EditorAdapter {
  import opened Options

  /** An OPDS link, by relation and target. */
  datatype Link = Link(rel: string, href: string)

  /** The parts of an OPDS entry the adapter reads. */
  datatype OpdsEntry = OpdsEntry(title: string, links: seq<Link>)

  /** The book editor's data: exactly these four fields. */
  datatype BookData = BookData(title: string, hideLink: Option<Link>, restoreLink: Option<Link>, editLink: Option<Link>)

  const HideRel := "http://librarysimplified.org/terms/rel/hide"
  const RestoreRel := "http://librarysimplified.org/terms/rel/restore"
  const EditRel := "edit"

  /** `links.find(link => link.rel === rel)`: the first link with that relation, or `undefined`. */
  function FindRel(links: seq<Link>, rel: string): (r: Option<Link>)
    ensures r.None? <==> forall i :: 0 <= i < |links| ==> links[i].rel != rel
    ensures r.Some? ==> exists i :: (0 <= i < |links| && links[i] == r.value
      && forall k :: 0 <= k < i ==> links[k].rel != rel)
    ensures r.Some? ==> r.value.rel == rel
  {
    if |links| == 0 then None
    else if links[0].rel == rel then Some(links[0])
    else
      var r := FindRel(links[1..], rel);
      assert r.Some? ==> exists i :: (0 <= i < |links| && links[i] == r.value
        && forall k :: 0 <= k < i ==> links[k].rel != rel) by {
        if r.Some? {
          var i :| 0 <= i < |links[1..]| && links[1..][i] == r.value
            && forall k :: 0 <= k < i ==> links[1..][k].rel != rel;
          assert links[i + 1] == r.value;
          forall k | 0 <= k < i + 1
            ensures links[k].rel != rel
          {
            if k > 0 {
              assert links[k] == links[1..][k - 1];
            }
          }
        }
      }
      r
  }

  /** `adapter(entry)`: the title unchanged and the first link of each relation. */
  function Adapt(entry: OpdsEntry): (b: BookData)
    ensures b.title == entry.title
    ensures b.hideLink == FindRel(entry.links, HideRel)
    ensures b.restoreLink == FindRel(entry.links, RestoreRel)
    ensures b.editLink == FindRel(entry.links, EditRel)
    ensures b.hideLink.Some? ==> b.hideLink.value.rel == HideRel
    ensures b.restoreLink.Some? ==> b.restoreLink.value.rel == RestoreRel
    ensures b.editLink.Some? ==> b.editLink.value.rel == EditRel
  {
    BookData(entry.title, FindRel(entry.links, HideRel), FindRel(entry.links, RestoreRel), FindRel(entry.links, EditRel))
  }

  // ----- Lemmas -----

  /** Links with other relations ahead of the first one of a relation do not change what is found. */
  lemma {:induction false} FindRelSkipsOthers(before: seq<Link>, after: seq<Link>, rel: string)
    requires forall i :: 0 <= i < |before| ==> before[i].rel != rel
    ensures FindRel(before + after, rel) == FindRel(after, rel)
  {
    if |before| != 0 {
      assert (before + after)[1..] == before[1..] + after;
      FindRelSkipsOthers(before[1..], after, rel);
    } else {
      assert before + after == after;
    }
  }

  /** Adding a link at the end never changes a link already found. */
  lemma {:induction false} AppendKeepsFound(links: seq<Link>, extra: Link, rel: string)
    requires FindRel(links, rel).Some?
    ensures FindRel(links + [extra], rel) == FindRel(links, rel)
  {
    assert (links + [extra])[0] == links[0];
    if links[0].rel != rel {
      assert (links + [extra])[1..] == links[1..] + [extra];
      AppendKeepsFound(links[1..], extra, rel);
    }
  }

  /** The link found for a relation is the first link that has it. */
  lemma FindRelAt(links: seq<Link>, i: nat, rel: string)
    requires i < |links| && links[i].rel == rel
    requires forall k :: 0 <= k < i ==> links[k].rel != rel
    ensures FindRel(links, rel) == Some(links[i])
  {
    assert links == links[..i] + links[i..];
    FindRelSkipsOthers(links[..i], links[i..], rel);
  }

  /** The book data holds, for each relation, the first link of the entry that has it. */
  lemma AdaptTakesFirstLinks(entry: OpdsEntry, i: nat)
    requires i < |entry.links|
    requires forall k :: 0 <= k < i ==> entry.links[k].rel != entry.links[i].rel
    ensures entry.links[i].rel == HideRel ==> Adapt(entry).hideLink == Some(entry.links[i])
    ensures entry.links[i].rel == RestoreRel ==> Adapt(entry).restoreLink == Some(entry.links[i])
    ensures entry.links[i].rel == EditRel ==> Adapt(entry).editLink == Some(entry.links[i])
  {
    FindRelAt(entry.links, i, entry.links[i].rel);
  }

  /** A book with an edit link and a hide link, and no restore link. */
  lemma AdapterExample()
    ensures Adapt(OpdsEntry("title", [Link(HideRel, "hide"), Link("edit", "edit"), Link(HideRel, "hide again")]))
         == BookData("title", Some(Link(HideRel, "hide")), None, Some(Link("edit", "edit")))
  {
    var links := [Link(HideRel, "hide"), Link("edit", "edit"), Link(HideRel, "hide again")];
    assert links[1..] == [Link("edit", "edit"), Link(HideRel, "hide again")];
    assert links[1..][1..] == [Link(HideRel, "hide again")];
    assert links[1..][1..][1..] == [];
    assert HideRel != RestoreRel && HideRel != EditRel && RestoreRel != EditRel;
    assert FindRel(links, HideRel) == Some(Link(HideRel, "hide"));
    assert FindRel(links, EditRel) == Some(Link("edit", "edit"));
    assert FindRel(links[1..][1..], RestoreRel) == None;
    assert FindRel(links, RestoreRel) == None;
  }
}
