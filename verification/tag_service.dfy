/**
 * The tag service (src/endpoints/tags/service.py) over the tags table and
 * the tag lists of books. A book's tag list is the sequence of the uids of
 * its linked tags. New tags take their uid from the uuid4 supply `uuid4`
 * (the k-th tag created in one call gets `uuid4(k)`) and their creation time
 * from `now`.
 */
module TagService {
  import opened Common
  import opened Tables
  import opened Models
  import BookService

  const TAG_ALREADY_EXISTS: string := "A tag with this name already exists."

  function TagNotFoundMessage(tagUid: Uid): string
  {
    "Tag with id " + tagUid + " was not found."
  }

  /** Tag names are pairwise distinct: the invariant `create_tag` keeps. */
  ghost predicate DistinctNames(tags: seq<Tag>)
  {
    forall i, j :: 0 <= i < j < |tags| ==> tags[i].name != tags[j].name
  }

  /** Two different rows of the table carry the name `name`. */
  ghost predicate SharedName(tags: seq<Tag>, name: string)
  {
    exists i, j :: 0 <= i < j < |tags| && tags[i].name == name && tags[j].name == name
  }

  /** No uid the supply can draw is already a key of the tags table. */
  ghost predicate FreshSupply(tags: seq<Tag>, uuid4: nat -> Uid)
  {
    forall k: nat, i :: 0 <= i < |tags| ==> tags[i].uid != uuid4(k)
  }

  /** `select(Tag).where(Tag.name == name).one_or_none()`. */
  function TagNamed(tags: seq<Tag>, name: string): (r: Lookup<Tag>)
    ensures r.NoRow? <==> forall t :: t in tags ==> t.name != name
    ensures r.ManyRows? <==> SharedName(tags, name)
    ensures r.OneRow? ==> r.row in tags && r.row.name == name
    ensures r.OneRow? ==> forall t :: t in tags && t.name == name ==> t == r.row
  {
    OneOrNone(tags, (t: Tag) => t.name == name)
  }

  function NamesOf(ts: seq<Tag>): (r: seq<string>)
    ensures |r| == |ts| && forall j :: 0 <= j < |ts| ==> r[j] == ts[j].name
  {
    if |ts| == 0 then [] else [ts[0].name] + NamesOf(ts[1..])
  }

  function UidsOf(ts: seq<Tag>): (r: seq<Uid>)
    ensures |r| == |ts| && forall j :: 0 <= j < |ts| ==> r[j] == ts[j].uid
  {
    if |ts| == 0 then [] else [ts[0].uid] + UidsOf(ts[1..])
  }

  /** `[t.name for t in book.tags]`: the names of the tags a list of uids links to. */
  function LinkedNames(uids: seq<Uid>, tags: seq<Tag>): (r: seq<string>)
    ensures forall n :: n in r ==> exists t :: t in tags && t.uid in uids && t.name == n
    ensures KeysDistinct(tags, TagKey) ==> forall t :: t in tags && t.uid in uids ==> t.name in r
  {
    if |uids| == 0 then []
    else
      var rest := LinkedNames(uids[1..], tags);
      match IndexOfKey(tags, TagKey, uids[0])
      case None => rest
      case Some(i) => [tags[i].name] + rest
  }

  /** The requested names that are not skipped, in request order. */
  function Wanted(names: seq<string>, skip: seq<string>): (r: seq<string>)
    ensures forall n :: n in r <==> n in names && n !in skip
  {
    if |names| == 0 then []
    else if names[0] in skip then Wanted(names[1..], skip)
    else [names[0]] + Wanted(names[1..], skip)
  }

  /** What the loop of `add_tags_for_book` collects: the new tag list, and which of its tags are new. */
  datatype Collected = Collected(tags: seq<Tag>, created: seq<Tag>)

  /** `acc` and `created` in front of the outcome of the rest of the loop. */
  function Prepend(acc: seq<Tag>, created: seq<Tag>, rest: Result<Collected, ServiceError>)
    : Result<Collected, ServiceError>
  {
    match rest
    case Success(c) => Success(Collected(acc + c.tags, created + c.created))
    case Failure(e) => Failure(e)
  }

  lemma PrependNothing(rest: Result<Collected, ServiceError>)
    ensures Prepend([], [], rest) == rest
  {
    if rest.Success? {
      assert [] + rest.value.tags == rest.value.tags;
      assert [] + rest.value.created == rest.value.created;
    }
  }

  lemma PrependTwice(acc: seq<Tag>, created: seq<Tag>, more: seq<Tag>, moreCreated: seq<Tag>,
                     rest: Result<Collected, ServiceError>)
    ensures Prepend(acc, created, Prepend(more, moreCreated, rest))
         == Prepend(acc + more, created + moreCreated, rest)
  {
    if rest.Success? {
      assert acc + (more + rest.value.tags) == (acc + more) + rest.value.tags;
      assert created + (moreCreated + rest.value.created) == (created + moreCreated) + rest.value.created;
    }
  }

  /**
   * The loop of `add_tags_for_book` over the requested names, as a
   * recursion: a name in `skip` is passed over; otherwise the one tag with
   * that name is reused, a new tag is made when there is none, and
   * MultipleResultsFound escapes when there are several. The table is read
   * as it was before the call: the new tags are not in the session yet.
   */
  function Collect(names: seq<string>, skip: seq<string>, tags: seq<Tag>, uuid4: nat -> Uid,
                   k: nat, now: nat): (r: Result<Collected, ServiceError>)
    ensures r.Failure? ==> r.error == MultipleResultsFound
    decreases |names|
  {
    if |names| == 0 then Success(Collected([], []))
    else if names[0] in skip then Collect(names[1..], skip, tags, uuid4, k, now)
    else
      match TagNamed(tags, names[0])
      case ManyRows => Failure(MultipleResultsFound)
      case OneRow(t) => Prepend([t], [], Collect(names[1..], skip, tags, uuid4, k, now))
      case NoRow =>
        var t := Tag(uuid4(k), names[0], now);
        Prepend([t], [t], Collect(names[1..], skip, tags, uuid4, k + 1, now))
  }

  /**
   * Every collected tag is either a tag of the table, reused, or one of the
   * new tags, and every new tag is on the collected list.
   */
  lemma {:induction false} CollectedReusedOrNew(names: seq<string>, skip: seq<string>, tags: seq<Tag>,
                                                uuid4: nat -> Uid, k: nat, now: nat)
    requires Collect(names, skip, tags, uuid4, k, now).Success?
    ensures var c := Collect(names, skip, tags, uuid4, k, now).value;
      && (forall t :: t in c.tags ==> t in tags || t in c.created)
      && (forall t :: t in c.created ==> t in c.tags)
    decreases |names|
  {
    if |names| > 0 {
      var next := if names[0] !in skip && TagNamed(tags, names[0]).NoRow? then k + 1 else k;
      CollectedReusedOrNew(names[1..], skip, tags, uuid4, next, now);
    }
  }

  /** A reused tag is the only tag of the table with its name. */
  lemma {:induction false} ReusedTagIsOnlyOne(names: seq<string>, skip: seq<string>, tags: seq<Tag>,
                                              uuid4: nat -> Uid, k: nat, now: nat)
    requires Collect(names, skip, tags, uuid4, k, now).Success?
    ensures var c := Collect(names, skip, tags, uuid4, k, now).value;
      forall t :: t in c.tags && t in tags ==> forall u :: u in tags && u.name == t.name ==> u == t
    decreases |names|
  {
    if |names| > 0 {
      var next := if names[0] !in skip && TagNamed(tags, names[0]).NoRow? then k + 1 else k;
      ReusedTagIsOnlyOne(names[1..], skip, tags, uuid4, next, now);
    }
  }

  /**
   * A new tag is made at `now` for a name no tag of the table has, and the
   * j-th new tag takes the j-th draw of the supply.
   */
  lemma {:induction false} NewTagsFromSupply(names: seq<string>, skip: seq<string>, tags: seq<Tag>,
                                             uuid4: nat -> Uid, k: nat, now: nat)
    requires Collect(names, skip, tags, uuid4, k, now).Success?
    ensures var c := Collect(names, skip, tags, uuid4, k, now).value;
      && (forall t :: t in c.created ==> t.createdAt == now && forall u :: u in tags ==> u.name != t.name)
      && (forall j :: 0 <= j < |c.created| ==> c.created[j].uid == uuid4(k + j))
    decreases |names|
  {
    if |names| == 0 {
    } else if names[0] in skip || TagNamed(tags, names[0]).OneRow? {
      NewTagsFromSupply(names[1..], skip, tags, uuid4, k, now);
    } else {
      NewTagsFromSupply(names[1..], skip, tags, uuid4, k + 1, now);
      var t := Tag(uuid4(k), names[0], now);
      var rest := Collect(names[1..], skip, tags, uuid4, k + 1, now).value;
      forall j | 1 <= j < |[t] + rest.created| ensures ([t] + rest.created)[j].uid == uuid4(k + j) {
        assert ([t] + rest.created)[j] == rest.created[j - 1];
      }
    }
  }

  /** The collected list carries the requested names that are not skipped, in request order. */
  lemma {:induction false} CollectedNames(names: seq<string>, skip: seq<string>, tags: seq<Tag>,
                                          uuid4: nat -> Uid, k: nat, now: nat)
    requires Collect(names, skip, tags, uuid4, k, now).Success?
    ensures NamesOf(Collect(names, skip, tags, uuid4, k, now).value.tags) == Wanted(names, skip)
    decreases |names|
  {
    if |names| > 0 && names[0] !in skip {
      var next := if TagNamed(tags, names[0]).NoRow? then k + 1 else k;
      CollectedNames(names[1..], skip, tags, uuid4, next, now);
      var c := Collect(names, skip, tags, uuid4, k, now).value;
      var rest := Collect(names[1..], skip, tags, uuid4, next, now).value;
      assert c.tags == [c.tags[0]] + rest.tags;
      assert c.tags[1..] == rest.tags;
    } else if |names| > 0 {
      CollectedNames(names[1..], skip, tags, uuid4, k, now);
    }
  }

  /** The loop fails exactly when some name it looks up is carried by two tags. */
  lemma {:induction false} CollectFailsIff(names: seq<string>, skip: seq<string>, tags: seq<Tag>,
                                           uuid4: nat -> Uid, k: nat, now: nat)
    ensures Collect(names, skip, tags, uuid4, k, now).Failure?
            <==> exists n :: n in names && n !in skip && SharedName(tags, n)
    decreases |names|
  {
    if |names| > 0 {
      var next := if names[0] !in skip && TagNamed(tags, names[0]).NoRow? then k + 1 else k;
      CollectFailsIff(names[1..], skip, tags, uuid4, next, now);
      assert names == [names[0]] + names[1..];
      assert forall n :: n in names <==> n == names[0] || n in names[1..];
    }
  }

  /** With distinct tag names in the table, the loop never fails. */
  lemma DistinctNamesCollect(names: seq<string>, skip: seq<string>, tags: seq<Tag>,
                             uuid4: nat -> Uid, now: nat)
    requires DistinctNames(tags)
    ensures Collect(names, skip, tags, uuid4, 0, now).Success?
  {
    CollectFailsIff(names, skip, tags, uuid4, 0, now);
  }

  /**
   * Unlike `create_tag`, the loop does not keep tag names distinct: a name
   * that no tag has, requested twice, gives two new tags with that name.
   */
  lemma RepeatedNewNameMakesTwoTags(name: string, skip: seq<string>, tags: seq<Tag>,
                                    uuid4: nat -> Uid, k: nat, now: nat)
    requires name !in skip && forall t :: t in tags ==> t.name != name
    ensures var c := Collect([name, name], skip, tags, uuid4, k, now);
      && c.Success?
      && c.value.created == [Tag(uuid4(k), name, now), Tag(uuid4(k + 1), name, now)]
      && !DistinctNames(tags + c.value.created)
  {
    var first := Tag(uuid4(k), name, now);
    var second := Tag(uuid4(k + 1), name, now);
    assert TagNamed(tags, name).NoRow?;
    assert [name][1..] == [];
    assert Collect([], skip, tags, uuid4, k + 2, now) == Success(Collected([], []));
    assert [second] + [] == [second];
    assert Collect([name], skip, tags, uuid4, k + 1, now) == Success(Collected([second], [second]));
    assert [first] + [second] == [first, second];
    assert [name, name][1..] == [name];
    var all := tags + [first, second];
    assert all[|tags|].name == all[|tags| + 1].name;
  }

  /** The `for tag in tag_data.tags` loop, accumulating `tags_to_add`. */
  method CollectTags(names: seq<string>, skip: seq<string>, tags: seq<Tag>, uuid4: nat -> Uid, now: nat)
    returns (r: Result<Collected, ServiceError>)
    ensures r == Collect(names, skip, tags, uuid4, 0, now)
  {
    var tagsToAdd: seq<Tag> := [];
    var created: seq<Tag> := [];
    var i := 0;
    assert names[i..] == names;
    PrependNothing(Collect(names, skip, tags, uuid4, 0, now));
    while i < |names|
      invariant i <= |names|
      invariant Collect(names, skip, tags, uuid4, 0, now)
             == Prepend(tagsToAdd, created, Collect(names[i..], skip, tags, uuid4, |created|, now))
    {
      var name := names[i];
      ghost var tail := names[i..];
      assert tail[0] == name && tail[1..] == names[i + 1..];
      if name in skip {
        assert Collect(tail, skip, tags, uuid4, |created|, now)
            == Collect(names[i + 1..], skip, tags, uuid4, |created|, now);
        i := i + 1;
        continue;
      }
      var found := TagNamed(tags, name);
      if found.ManyRows? {
        assert Collect(tail, skip, tags, uuid4, |created|, now) == Failure(MultipleResultsFound);
        return Failure(MultipleResultsFound);
      }
      if found.OneRow? {
        assert Collect(tail, skip, tags, uuid4, |created|, now)
            == Prepend([found.row], [], Collect(names[i + 1..], skip, tags, uuid4, |created|, now));
        PrependTwice(tagsToAdd, created, [found.row], [],
                     Collect(names[i + 1..], skip, tags, uuid4, |created|, now));
        assert created + [] == created;
        tagsToAdd := tagsToAdd + [found.row];
      } else {
        var tagToAdd := Tag(uuid4(|created|), name, now);
        assert Collect(tail, skip, tags, uuid4, |created|, now)
            == Prepend([tagToAdd], [tagToAdd], Collect(names[i + 1..], skip, tags, uuid4, |created| + 1, now));
        PrependTwice(tagsToAdd, created, [tagToAdd], [tagToAdd],
                     Collect(names[i + 1..], skip, tags, uuid4, |created| + 1, now));
        tagsToAdd := tagsToAdd + [tagToAdd];
        created := created + [tagToAdd];
      }
      i := i + 1;
    }
    assert names[i..] == [];
    assert tagsToAdd + [] == tagsToAdd && created + [] == created;
    r := Success(Collected(tagsToAdd, created));
  }

  /** New tags drawn from a fresh, injective supply keep the keys of the table distinct. */
  lemma AppendCreated(tags: seq<Tag>, created: seq<Tag>, uuid4: nat -> Uid)
    requires KeysDistinct(tags, TagKey) && FreshSupply(tags, uuid4) && Injective(uuid4)
    requires forall j :: 0 <= j < |created| ==> created[j].uid == uuid4(j)
    ensures KeysDistinct(tags + created, TagKey)
  {
    var all := tags + created;
    forall a, b | 0 <= a < b < |all| ensures TagKey(all[a]) != TagKey(all[b]) {
      if b >= |tags| {
        assert all[b] == created[b - |tags|];
        if a >= |tags| {
          assert all[a] == created[a - |tags|];
        } else {
          assert all[a] == tags[a];
        }
      }
    }
  }

  /**
   * `add_tags_for_book`: TagException with the book error's message for an
   * unknown book; otherwise the book's tag list becomes exactly the collected
   * list and the tags made for it are added to the table.
   */
  method AddTagsForBook(db: Session, bookUid: Uid, names: seq<string>, uuid4: nat -> Uid, now: nat)
    returns (r: Result<Book, ServiceError>)
    requires db.Valid() && Injective(uuid4) && FreshSupply(db.tags, uuid4)
    modifies db`books, db`tags
    ensures db.Valid()
    ensures BookService.GetBook(old(db.books), bookUid).Failure? ==>
              && r == Failure(TagFailure(BookService.BookNotFoundMessage(bookUid)))
              && db.books == old(db.books) && db.tags == old(db.tags)
    ensures BookService.GetBook(old(db.books), bookUid).Success? ==>
              var b := BookService.GetBook(old(db.books), bookUid).value;
              var c := Collect(names, LinkedNames(b.tags, old(db.tags)), old(db.tags), uuid4, 0, now);
              && (c.Failure? ==> r == Failure(c.error) && db.books == old(db.books) && db.tags == old(db.tags))
              && (c.Success? ==>
                    && r == Success(b.(tags := UidsOf(c.value.tags)))
                    && db.tags == old(db.tags) + c.value.created
                    && |db.books| == |old(db.books)|
                    && forall k :: 0 <= k < |db.books| ==>
                         db.books[k] == if old(db.books)[k].uid == bookUid then r.value else old(db.books)[k])
  {
    var found := IndexOfKey(db.books, BookKey, bookUid);
    if found.None? {
      return Failure(TagFailure(BookService.BookNotFoundMessage(bookUid)));
    }
    var i := found.value;
    var book := db.books[i];
    var bookTagNames := LinkedNames(book.tags, db.tags);
    var collected := CollectTags(names, bookTagNames, db.tags, uuid4, now);
    if collected.Failure? {
      return Failure(collected.error);
    }
    NewTagsFromSupply(names, bookTagNames, db.tags, uuid4, 0, now);
    AppendCreated(db.tags, collected.value.created, uuid4);
    book := book.(tags := UidsOf(collected.value.tags));
    db.books := db.books[i := book];
    db.tags := db.tags + collected.value.created;
    r := Success(book);
  }

  /**
   * The book's new list holds none of the tags it had before the call: the
   * names already on the book are skipped, and the list is replaced rather
   * than extended, so asking again for an attached tag detaches it.
   */
  lemma PreviousTagsDetached(b: Book, names: seq<string>, tags: seq<Tag>, uuid4: nat -> Uid, now: nat)
    requires KeysDistinct(tags, TagKey) && FreshSupply(tags, uuid4)
    requires Collect(names, LinkedNames(b.tags, tags), tags, uuid4, 0, now).Success?
    ensures var c := Collect(names, LinkedNames(b.tags, tags), tags, uuid4, 0, now).value;
      forall t :: t in tags && t.uid in b.tags ==> t.uid !in UidsOf(c.tags)
  {
    var skip := LinkedNames(b.tags, tags);
    var c := Collect(names, skip, tags, uuid4, 0, now).value;
    CollectedNames(names, skip, tags, uuid4, 0, now);
    CollectedReusedOrNew(names, skip, tags, uuid4, 0, now);
    NewTagsFromSupply(names, skip, tags, uuid4, 0, now);
    forall t | t in tags && t.uid in b.tags ensures t.uid !in UidsOf(c.tags) {
      assert t.name in skip;
    }
  }

  /** `get_all_tags`: every tag, newest first. */
  function GetAllTags(tags: seq<Tag>): (r: seq<Tag>)
    ensures multiset(r) == multiset(tags)
    ensures NewestFirstOrder(r, TagAge)
  {
    NewestFirst(tags, TagAge)
  }

  /** `get_tag`: the tag with that uid, or TagNotFoundException. */
  function GetTag(tags: seq<Tag>, tagUid: Uid): (r: Result<Tag, ServiceError>)
    ensures r.Success? ==> r.value in tags && r.value.uid == tagUid
    ensures r.Failure? <==> forall t :: t in tags ==> t.uid != tagUid
    ensures r.Failure? ==> r.error == TagNotFound(TagNotFoundMessage(tagUid))
  {
    match IndexOfKey(tags, TagKey, tagUid)
    case Some(i) => Success(tags[i])
    case None => Failure(TagNotFound(TagNotFoundMessage(tagUid)))
  }

  /**
   * `create_tag`: TagAlreadyExistsException when a tag has the name,
   * MultipleResultsFound when several have it, otherwise one new tag.
   */
  method CreateTag(db: Session, name: string, uid: Uid, now: nat) returns (r: Result<Tag, ServiceError>)
    requires db.Valid() && FreshKey(db.tags, TagKey, uid)
    modifies db`tags
    ensures db.Valid()
    ensures old(DistinctNames(db.tags)) ==> DistinctNames(db.tags)
    ensures (exists t :: t in old(db.tags) && t.name == name) ==> db.tags == old(db.tags) && r.Failure?
    ensures r.Failure? ==> db.tags == old(db.tags)
    ensures r.Failure? && old(DistinctNames(db.tags)) ==> r.error == TagAlreadyExists(TAG_ALREADY_EXISTS)
    ensures r.Success? <==> forall t :: t in old(db.tags) ==> t.name != name
    ensures r.Success? ==> r.value == Tag(uid, name, now) && db.tags == old(db.tags) + [r.value]
  {
    var found := TagNamed(db.tags, name);
    if found.ManyRows? {
      return Failure(MultipleResultsFound);
    }
    if found.OneRow? {
      return Failure(TagAlreadyExists(TAG_ALREADY_EXISTS));
    }
    var tag := Tag(uid, name, now);
    AppendFreshKey(db.tags, TagKey, tag);
    db.tags := db.tags + [tag];
    r := Success(tag);
  }

  /** The one item of a tag update: its name. */
  datatype TagAttr = Name(name: string)

  function SetTagAttr(t: Tag, a: TagAttr): Tag
  {
    t.(name := a.name)
  }

  /**
   * `update_tag`: renames that one tag and leaves every other row as it was;
   * TagNotFoundException for an unknown id.
   */
  method UpdateTag(db: Session, tagUid: Uid, newName: string) returns (r: Result<Tag, ServiceError>)
    requires db.Valid()
    modifies db`tags
    ensures db.Valid()
    ensures GetTag(old(db.tags), tagUid).Failure? ==>
              r == GetTag(old(db.tags), tagUid) && db.tags == old(db.tags)
    ensures GetTag(old(db.tags), tagUid).Success? ==>
              && r == Success(GetTag(old(db.tags), tagUid).value.(name := newName))
              && |db.tags| == |old(db.tags)|
              && forall k :: 0 <= k < |db.tags| ==>
                   db.tags[k] == if old(db.tags)[k].uid == tagUid then r.value else old(db.tags)[k]
  {
    var found := IndexOfKey(db.tags, TagKey, tagUid);
    if found.None? {
      return Failure(TagNotFound(TagNotFoundMessage(tagUid)));
    }
    var i := found.value;
    var updated := SetAttrs(db.tags[i], [Name(newName)], SetTagAttr);
    assert ApplyAttrs(db.tags[i], [Name(newName)], SetTagAttr) == db.tags[i].(name := newName);
    db.tags := db.tags[i := updated];
    r := Success(updated);
  }

  /** `delete_tag`: removes exactly that tag; TagNotFoundException for an unknown id. */
  method DeleteTag(db: Session, tagUid: Uid) returns (r: Result<Tag, ServiceError>)
    requires db.Valid()
    modifies db`tags
    ensures db.Valid()
    ensures r == GetTag(old(db.tags), tagUid)
    ensures r.Failure? ==> db.tags == old(db.tags)
    ensures r.Success? ==> db.tags == Without(old(db.tags), TagKey, tagUid)
    ensures r.Success? ==> |db.tags| == |old(db.tags)| - 1
  {
    var found := IndexOfKey(db.tags, TagKey, tagUid);
    if found.None? {
      return Failure(TagNotFound(TagNotFoundMessage(tagUid)));
    }
    var i := found.value;
    r := Success(db.tags[i]);
    RemoveAtIsWithout(db.tags, TagKey, i);
    db.tags := db.tags[..i] + db.tags[i + 1..];
  }
}
