/**
 * The logic of PersonCard, the list-row widget that shows one person: the
 * index text, the rendered coloured tags (built in order, rebuilt completely
 * when the person's tags change), the delete gesture and card equality.
 */
module PersonCardView {
  import opened Wrappers
  import opened JavaStrings
  import opened TagColors

  /** The person shown by a card; only the tags take part in the card's own logic. */
  datatype Person = Person(name: string, phone: string, address: string, email: string, score: string,
                           tags: seq<string>)

  /** One rendered tag: its text and its background colour. */
  datatype TagLabel = TagLabel(text: string, color: string)

  /** What the command executor does with a command string: feedback, or one of its two failures. */
  datatype CommandOutcome =
    | Executed(feedback: string)
    | ParseFailure(message: string)
    | CommandFailure(message: string)

  /** What a gesture publishes to the result display, and the command it sent, if any. */
  datatype GestureResult = GestureResult(published: string, sent: Option<string>)

  const FavList := "favlist"
  const DeleteRefused := "Delete command does not work in favourite list"

  /** The message published for an executor outcome: the feedback or the failure's message. */
  function Published(o: CommandOutcome): (msg: string)
    ensures o.Executed? ==> msg == o.feedback
    ensures !o.Executed? ==> msg == o.message
  {
    match o
    case Executed(feedback) => feedback
    case ParseFailure(message) => message
    case CommandFailure(message) => message
  }

  /** The index text shown on a card. */
  function IndexText(cardNum: int): (t: string)
    ensures |t| >= 3
    ensures t[|t| - 2..] == ". "
    ensures t[..|t| - 2] == IntToString(cardNum)
  {
    IntToString(cardNum) + ". "
  }

  /** The delete command rebuilt from an index text by dropping its last two characters. */
  function DeleteCommand(idText: string): (c: string)
    requires |idText| >= 2
    ensures |c| == |"delete "| + |idText| - 2
    ensures c[..|"delete "|] == "delete "
    ensures c[|"delete "|..] == idText[..|idText| - 2]
  {
    "delete " + idText[..|idText| - 2]
  }

  /** Dropping the ". " suffix gives back the index, so the command names the card's own index. */
  lemma DeleteCommandNamesIndex(cardNum: int)
    ensures DeleteCommand(IndexText(cardNum)) == "delete " + IntToString(cardNum)
    ensures ParseInt(DeleteCommand(IndexText(cardNum))[|"delete "|..]) == cardNum
  {
    var digits := IntToString(cardNum);
    assert (digits + ". ")[..|digits|] == digits;
    assert ("delete " + digits)[|"delete "|..] == digits;
    IntToStringRoundTrip(cardNum);
  }

  /** Card 3 shows "3. " and, outside the favourites list, sends "delete 3". */
  lemma IndexThreeExample()
    ensures IndexText(3) == "3. "
    ensures DeleteCommand(IndexText(3)) == "delete 3"
  {
    assert NatToDigits(3) == "3";
  }

  /** Distinct indices give distinct index texts. */
  lemma IndexTextInjective(a: int, b: int)
    ensures IndexText(a) == IndexText(b) <==> a == b
  {
    if IndexText(a) == IndexText(b) {
      assert IntToString(a) == IndexText(a)[..|IndexText(a)| - 2];
      assert IntToString(b) == IndexText(b)[..|IndexText(b)| - 2];
      IntToStringInjective(a, b);
    }
  }

  /** The rendered tag list for a tag sequence: one label per tag, in order, in the tag's colour. */
  function Labels(tags: seq<string>): (r: seq<TagLabel>)
    ensures |r| == |tags|
    ensures forall i :: 0 <= i < |tags| ==> r[i] == TagLabel(tags[i], ColorFor(tags[i]))
  {
    if tags == [] then [] else
      var last := tags[|tags| - 1];
      Labels(tags[..|tags| - 1]) + [TagLabel(last, ColorFor(last))]
  }

  class PersonCard {
    var person: Person
    const cardNum: int
    const idText: string
    var rendered: seq<TagLabel>
    const colorizer: TagColorizer

    /** The card's invariant: its index text, the shared cache, and the tags on screen. */
    ghost predicate Valid()
      reads this, colorizer
    {
      && idText == IndexText(cardNum)
      && colorizer.Valid()
      && rendered == Labels(person.tags)
    }

    /** Builds a card for the person at the given display index, rendering its tags. */
    constructor (person: Person, displayedIndex: int, colorizer: TagColorizer)
      requires colorizer.Valid()
      modifies colorizer
      ensures Valid()
      ensures this.person == person && cardNum == displayedIndex && this.colorizer == colorizer
      ensures idText == IndexText(displayedIndex)
      ensures rendered == Labels(person.tags)
      ensures colorizer.mapping == Assign(old(colorizer.mapping), person.tags)
    {
      this.person := person;
      this.colorizer := colorizer;
      cardNum := displayedIndex;
      idText := IndexText(displayedIndex);
      rendered := [];
      new;
      InitTags();
    }

    /** initTags: append one coloured label per tag of the person, in order. */
    method InitTags()
      requires colorizer.Valid()
      modifies this`rendered, colorizer
      ensures colorizer.Valid()
      ensures rendered == old(rendered) + Labels(person.tags)
      ensures colorizer.mapping == Assign(old(colorizer.mapping), person.tags)
    {
      var tags := person.tags;
      var i := 0;
      while i < |tags|
        invariant 0 <= i <= |tags|
        invariant colorizer.Valid()
        invariant rendered == old(rendered) + Labels(tags[..i])
        invariant colorizer.mapping == Assign(old(colorizer.mapping), tags[..i])
      {
        var tag := tags[i];
        var color := colorizer.MapTagToColor(tag);
        assert tags[..i + 1][..i] == tags[..i];
        rendered := rendered + [TagLabel(tag, color)];
        i := i + 1;
      }
      assert tags[..i] == tags;
    }

    /** The tag listener: the person's tags changed, so clear the rendered tags and rebuild them. */
    method OnTagsChanged(newTags: seq<string>)
      requires colorizer.Valid() && idText == IndexText(cardNum)
      modifies this`person, this`rendered, colorizer
      ensures Valid()
      ensures person == old(person).(tags := newTags)
      ensures rendered == Labels(newTags)
      ensures colorizer.mapping == Assign(old(colorizer.mapping), newTags)
    {
      person := person.(tags := newTags);
      rendered := [];
      InitTags();
    }

    /**
     * handleDeleteButtonAction: refuse in the favourites list; otherwise send
     * the delete command rebuilt from the index text and publish the outcome.
     */
    function HandleDeleteButtonAction(currentList: string, execute: string -> CommandOutcome): (g: GestureResult)
      reads this
      requires idText == IndexText(cardNum)
      ensures Contains(currentList, FavList) ==> g == GestureResult(DeleteRefused, None)
      ensures !Contains(currentList, FavList) ==>
                g.sent == Some("delete " + IntToString(cardNum)) &&
                g.published == Published(execute("delete " + IntToString(cardNum)))
    {
      DeleteCommandNamesIndex(cardNum);
      var delCommand := DeleteCommand(idText);
      if Contains(currentList, FavList) then
        GestureResult(DeleteRefused, None)
      else
        GestureResult(Published(execute(delCommand)), Some(delCommand))
    }

    /** equals: the same card, or a card with the same index text and an equal person. */
    predicate Equals(other: PersonCard?)
      reads this, other
      ensures Equals(other) <==> other != null && idText == other.idText && person == other.person
    {
      if other == this then true
      else if other == null then false
      else idText == other.idText && person == other.person
    }
  }

  /** Card equality is reflexive and symmetric. */
  lemma EqualsReflexiveSymmetric(a: PersonCard, b: PersonCard)
    ensures a.Equals(a)
    ensures a.Equals(b) <==> b.Equals(a)
  {
  }

  /** Two well-formed cards are equal exactly when they show the same index and an equal person. */
  lemma EqualsIffSameIndexAndPerson(a: PersonCard, b: PersonCard)
    requires a.idText == IndexText(a.cardNum) && b.idText == IndexText(b.cardNum)
    ensures a.Equals(b) <==> a.cardNum == b.cardNum && a.person == b.person
  {
    IndexTextInjective(a.cardNum, b.cardNum);
  }
}
