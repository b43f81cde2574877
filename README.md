# PersonCard logic, modelled in Dafny

PersonCard is the list-row widget of an address-book desktop application: it shows one person's
fields, renders the person's tags as coloured labels and wires a delete button to the text-command
executor. This project models the logic inside that widget:

- **Tag colour cache** (`TagColors`): a fixed seven-entry palette and a process-wide map from tag
  label to colour. On first sight a label is bound to `Palette[len(label) mod 7]`. Every later lookup
  returns the stored colour. The cache is a class (`TagColorizer`) whose `mapping` field the lookup
  method updates in place. Its invariant is that every stored entry holds the colour its label was
  first given.
- **Rendered tags** (`PersonCardView.PersonCard`): the constructor and the tag listener build the
  rendered list with a loop that appends one `(text, colour)` label per tag, in order. The listener
  clears the list before rebuilding it.
- **Index text and delete gesture**: a card shows `cardNum + ". "`. The delete button drops the last
  two characters of that text, prefixes `"delete "` and sends the result to the executor. Inside the
  favourites list it sends nothing and publishes a fixed refusal instead. The executor is a function
  parameter returning feedback or one of its two failures (a parse error or a command error). The
  gesture returns the message that would be published and the command that was sent, if any.
- **Card equality**: two cards are equal when their index texts and their persons are equal.
- **Java strings** (`JavaStrings`): `Integer.toString`, a decimal read-back used to show that the
  delete command names the card's own index, and `String.contains`.

## Model

| member | source | states |
|---|---|---|
| `TagColors.ColorFor` | src/main/java/seedu/address/ui/PersonCard.java:29 | a label's first colour is always one of the seven palette entries |
| `TagColors.Lookup` | src/main/java/seedu/address/ui/PersonCard.java:83-86 | one lookup adds exactly the looked-up label to the keys, keeps every existing entry, and binds an absent label to its palette colour; that stored colours never change across lookups is `SameTagSameColor` |
| `TagColors.TagColorizer.constructor` | src/main/java/seedu/address/ui/PersonCard.java:30 | the cache starts empty and satisfies its invariant |
| `TagColors.TagColorizer.MapTagToColor` | src/main/java/seedu/address/ui/PersonCard.java:82-87 | an absent label is bound to `Palette[len mod 7]`; a present label leaves the map unchanged and its stored colour is returned; the result is always the label's palette colour and lies in the palette; the invariant is kept |
| `TagColors.AssignKeepsEntries` | src/main/java/seedu/address/ui/PersonCard.java:83-86 | any run of lookups never removes or overwrites an existing entry |
| `TagColors.AssignKeys` | src/main/java/seedu/address/ui/PersonCard.java:83-86 | after a run of lookups the key set is exactly the old keys plus the labels looked up |
| `TagColors.AssignPreservesValid` | src/main/java/seedu/address/ui/PersonCard.java:82-87 | lookups keep every stored value equal to its label's palette colour, so stored values are always palette entries |
| `TagColors.SameTagSameColor` | src/main/java/seedu/address/ui/PersonCard.java:77-87 | once a label has been looked up, its colour stays the same whatever other labels are looked up afterwards |
| `TagColors.SameLengthClassSameColor` | src/main/java/seedu/address/ui/PersonCard.java:84 | labels whose lengths agree modulo 7 get the same colour |
| `JavaStrings.NatToDigits` | src/main/java/seedu/address/ui/PersonCard.java:72 | the decimal text of a number is non-empty, all digits, and has no leading zero |
| `JavaStrings.IntToString` | src/main/java/seedu/address/ui/PersonCard.java:72 | the decimal text of an int is non-empty, starts with a minus sign exactly when the int is negative, and is digits after it; `IntToStringRoundTrip` shows it reads back as the same int |
| `JavaStrings.DigitsRoundTrip` | src/main/java/seedu/address/ui/PersonCard.java:72 | reading the digits of a natural number back gives that number |
| `JavaStrings.IntToStringRoundTrip` | src/main/java/seedu/address/ui/PersonCard.java:72 | reading the decimal text of any int back gives that int, sign included |
| `JavaStrings.IntToStringInjective` | src/main/java/seedu/address/ui/PersonCard.java:72 | two ints have equal decimal texts exactly when they are equal |
| `JavaStrings.Contains` | src/main/java/seedu/address/ui/PersonCard.java:154 | the current-list name contains a string exactly when that string occurs at some position in it |
| `PersonCardView.IndexText` | src/main/java/seedu/address/ui/PersonCard.java:72 | the index text ends in `". "` and everything before that suffix is the decimal text of the index; distinct indices give distinct texts by `IndexTextInjective` |
| `PersonCardView.DeleteCommand` | src/main/java/seedu/address/ui/PersonCard.java:150-151 | the command is `"delete "` followed by the index text without its last two characters; `DeleteCommand(IndexText(n)) == "delete " + IntToString(n)` by `DeleteCommandNamesIndex` |
| `PersonCardView.Published` | src/main/java/seedu/address/ui/PersonCard.java:161-166 | the published text is the executor's feedback on success and the failure's message for either failure kind, which are not told apart |
| `PersonCardView.IndexThreeExample` | src/main/java/seedu/address/ui/PersonCard.java:150-151 | card 3 shows `"3. "` and its delete command is `"delete 3"` |
| `PersonCardView.DeleteCommandNamesIndex` | src/main/java/seedu/address/ui/PersonCard.java:150-151 | dropping the last two characters of the index text gives back the index exactly, so the command is `"delete " + cardNum` and its argument reads back as `cardNum` |
| `PersonCardView.IndexTextInjective` | src/main/java/seedu/address/ui/PersonCard.java:72 | two cards have equal index texts exactly when their indices are equal |
| `PersonCardView.Labels` | src/main/java/seedu/address/ui/PersonCard.java:110-115 | the rendered list for a tag sequence has one entry per tag, in order, each with the tag's text and its palette colour |
| `PersonCardView.PersonCard.constructor` | src/main/java/seedu/address/ui/PersonCard.java:66-75 | a new card shows `cardNum + ". "`, renders exactly the person's tags, and looks each tag up in the shared cache in order |
| `PersonCardView.PersonCard.InitTags` | src/main/java/seedu/address/ui/PersonCard.java:110-117 | appends one label per tag, in order, to whatever is already rendered; the shared cache becomes the old cache after looking up every tag, and keeps its invariant |
| `PersonCardView.PersonCard.OnTagsChanged` | src/main/java/seedu/address/ui/PersonCard.java:99-102 | after a tag change the rendered list is exactly the labels of the new tags, whatever was rendered before (the precondition does not constrain the old rendered list) |
| `PersonCardView.PersonCard.HandleDeleteButtonAction` | src/main/java/seedu/address/ui/PersonCard.java:147-168 | inside a list whose name contains `"favlist"` no command is sent and the refusal message is published; otherwise exactly `"delete " + cardNum` is sent and the executor's feedback, or its failure message, is published |
| `PersonCardView.PersonCard.Equals` | src/main/java/seedu/address/ui/PersonCard.java:125-139 | the identity short cut and the null case agree with comparing index text and person |
| `PersonCardView.EqualsReflexiveSymmetric` | src/main/java/seedu/address/ui/PersonCard.java:125-129 | card equality is reflexive and symmetric |
| `PersonCardView.EqualsIffSameIndexAndPerson` | src/main/java/seedu/address/ui/PersonCard.java:125-139 | two cards are equal exactly when their indices are equal and their persons are equal |

## Left out

- The JavaFX bindings of name, phone, address, email and score (PersonCard.java:94-98), FXML injection, the `Label`/`FlowPane` widgets and CSS style strings: framework behaviour. A rendered tag keeps only its text and colour.
- `handleEditButtonAction` (PersonCard.java:175-191): it opens an `EditWindow`, which is UI, and as written it has two `else` branches, so it does not compile and has no behaviour to model.
- Logging and `raise(new NewResultAvailableEvent(...))`: I/O and the event bus. The model returns the message that would be published.
- `Logic.execute` and `Logic.getCurrentList` are not part of this model. They appear as a function parameter and a string parameter.
- `PersonCardView.PersonCard.Equals`: `ReadOnlyPerson.equals` is not part of this model, so persons are compared as whole values. A non-card argument of `equals` cannot be expressed here, because the parameter is a card or null.
- `PersonCardView.PersonCard.OnTagsChanged`: the observed person is a mutable entity; the model holds its current state by value and receives the new tags from the listener.
- Tag iteration order: the person's tags are a set; the model takes the order in which `forEach` visits them as a sequence.
- `TagColors.ColorFor`: the label length is counted in Unicode characters, whereas `String.length()` counts UTF-16 code units; the two differ for characters outside the Basic Multilingual Plane.
- `JavaStrings.IntToStringRoundTrip`: the card index is an unbounded integer rather than a 32-bit `int`; decimal text is the same for every value in `int` range.
- Concurrency: the static map is unsynchronised, but all use is on the single UI thread.
