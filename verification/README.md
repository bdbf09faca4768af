# Verification of the redaction engine and the name generator

A Dafny model of the two parts of the program that everything else rests on, with proofs that hold for
all inputs, all random draws and all runs. `dafny verify dfyconfig.toml` checks the project.

## What is modelled

**The pronounceable-name generator** (`names/namegen.go`). The rule, digram and draw tables are the
program's own (`ApgTables`). `NameGen` has the generator state as a class whose saved unit and saved pair
are updated in place, the unit arrays, the three nested loops of a syllable and the word loop.
`Syllables` says what they compute, one try of a unit at a time, and every method of `NameGen` is proved
to compute exactly that. `SyllableLaws` proves what holds of every syllable and word by an invariant over
all runs, `Existence` gives draws that succeed for every length. The behaviour kept on purpose: a retry
restores the number of carried units but not the carried pair; a rejected syllable leaves the carry and
the overwritten array as they are; the wish for a vowel never reaches a draw; an initial y is no vowel
unless it was carried in as the older unit of a pair.

The random source is a finite supply of raw draws. A run that wants more than the supply holds ends with
"not ok" (`OutOfDraws`), so termination and existence are statements about supplies. Draws are taken
modulo the length of the table they index.

**The redaction engine** (`filter/`, `filter/email/`, `piiplugin/plugin.go`, the payload handling of
`piiplugin/adk/redactor.go`). The shared table from replacement to original is a class with one map field,
held by all filters. `Table` says what one call of `GetReplacement` may return, leaving the order in which
the map is searched open; `Unredaction` says what one unredaction pass restores. What a filter did to a
text is recorded as a sequence of pieces (`Pieces`): characters left alone, replacements, labels replaced
together with their top-level domain, and characters dropped. A text before and after, the calls made and
the final table are functions of the pieces, which makes the table's growth during a left-to-right scan
part of every statement. `NameScan` and `EmailScan` are the two regular expressions as scanners over ASCII
text; `Values` walks nested payloads on the heap, container by container and maps in any order; `Visits`
says which string was visited when.

## Main results

- A syllable is never empty nor too long; what it carries over always still fits; it has a vowel unless it
  fills the word; it opens and closes only where the tables allow (`SyllableLaws.SyllableIsGood`), and has no
  pair inside that the tables forbid there (`SyllablePairs.SyllableIsWellPaired`). A word has exactly the
  requested length and obeys the whole-word rules (`SyllableLaws.WordIsGood`, `WordSounds.WordSounds`). A unit
  or a syllable is refused for no other reason (`SyllablePairs.RefusedIff`, `WordSounds.TakenIff`), and the
  limits on tries are met exactly (`TryLimits.WordLimit`). For every length some draws succeed
  (`Existence.SomeDrawsSucceed`).
- A table kept by `GetReplacement` has one key for each original (`Table.KeepsOneKeyEach`). A stable table
  loses no entry by a call, and stays stable if and only if a word drawn is no key in another casing and its
  original is not too long (`Table.LosesNoEntry`, `Table.KeepsStableIff`, `Pieces.StableThroughoutIff`).
- Unredaction is leftmost-longest substitution in every order of the keys (`Unredaction.OrderDoesNotMatter`).
- Any subset of the filters is undone by one pass for each (`PiiLaws.LayeredRoundTrip`, and with everything
  said of the text that goes in, `InputLaws.InputRoundTrip`), also for payloads whose strings are redacted
  one after another while the table grows (`Payload.PayloadRoundTrip`, from what comes in
  `PayloadInput.PayloadInputRoundTrip`, on the callbacks `Redactor.AfterThenBefore`). A filter by itself
  restores a text if and only if no key stands in a stretch left alone (`PiiLaws.LayerRoundTripIff`).
- With any map of suffixes for top-level domains, unredaction restores the text if and only if no label
  appears with two of them behind one suffix (`SuffixLaws.SuffixRoundTripIff`). Behind filters for user and
  host names over the same table, one pass for each filter restores it (`SuffixLayers.ChainRoundTrip`).
- No listed name is left over in a redacted text, in any casing, neither by one filter nor by all of them
  (`NameLaws.NoNameIsLeft`, `InputLaws.NoNameIsLeftInRun`).

## Hypotheses

The code does not enforce these; each is a named predicate in the statements that need it.

- Listed names begin and end with a word character (`WordEnds`). For the mail filter to find in the text
  without user names the addresses it would find in the input, user names consist of letters and digits
  (`InputLaws.NamesAreWords`).
- A drawn word differs from every key up to case, and its original is not longer than 255 characters
  (`Separated`). The code compares with the keys in exact case only. This is exactly what keeps a table
  stable (`Table.KeepsStableIff`); `Table.CollidingDrawLosesEntry` shows what an unstable one leads to.
- No key of the final table occurs in the text (`NoKeyIn`). `Pieces.CheckedKeysAvoidIff` reduces this, for a
  part of the input, to the keys there at first and the keys adapted to another casing: it holds if and only
  if none of the latter occurs. `PayloadInput.LeavesAvoidIff` does so for the strings of a payload.
  `Pieces.FinalKeysAvoid` asks it of the words drawn instead.
- Addresses begin with a word character and do not follow each other without a character between them
  (`Spaced`). `EmailShape.AdjacentAddressIsNotRestored` shows a text that is not restored without this,
  `Witnesses.AdjacentRun` a run on it, and `EmailShape.LosesIff` says exactly when a match loses characters.
- The table at first is stable and has letter keys only (`Stable`, `LetterKeys`), as the empty table is.
  Every run keeps this. For suffixes it also has one key for each original (`OneKeyEach`), for the exact
  condition of a single filter no entry for itself (`NoneForItself`); runs of these filters keep them.
- No replacement is part of a listed name (`Unlisted`), for completeness only.
- What stands behind a replacement in the output does not read as a longer suffix that was written behind the
  same replacement (`Clear`), for suffixes only. With one suffix this says that no replaced label stands in
  front of a dot and the suffix (`NotFollowed`), and for an alphabetic one it is enough that no replacement
  begins with it (`NoneBegins`). Behind filters for names: suffixes consist of letters, none stands behind a
  dot in the text, and no replacement begins with one (`SuffixLayers.Fresh`).
- The containers of a payload form a tree, and the payload shares none with the filters (`Apart`).

## Where documentation and code differ

The model follows the code.

- `README.md` says that mail addresses reuse the replacements of the name filters. In the composite the mail
  filter is given the replacement of a user name and looks that up: it keeps it if and only if the name
  stands for itself, and replaces it once more otherwise (`PiiLaws.AnswersItselfIff`,
  `PiiLaws.MailKeepsReplacementIff`); on a table with no entry for itself, as the composite has at first, it
  always does (`PiiLaws.MailReplacesAgain`; `Witnesses.UserNameIsReplacedTwice` is a run). The round trip
  holds because there is one pass for each filter.
- `README.md` says that a replacement is checked against the whole input and can never collide with it. Keys
  that stand for the original already, and keys adapted to another casing, are not checked. No answer occurs
  in the input if and only if none of these does (`TableClaims.AvoidsInputIff`);
  `TableClaims.VariantCollidesWithInput` is an instance.
- `README.md` says that a name entered into the table for itself is never replaced. This holds if and only
  if the name has no dot and no other key of the table stands for it (`TableClaims.ExemptIff`); where every
  original has one key, the dot alone decides (`TableClaims.ExemptIffDotFree`).
  `TableClaims.DottedNameIsReplaced` and `TableClaims.SecondEntryIsReturned` are an instance of each failure.
  Other casings of a name without a dot have a condition of their own (`TableClaims.ExemptInAnyCaseIff`).

## Model

| member | source | states |
|---|---|---|
| `ApgTables.ApgIsSound` | names/namegen.go:25-1348 | The real tables: every unit spells one or two lower-case letters, and no pair that may begin a syllable starts with a unit that may not |
| `Phonology.Alphabet.SpellLength` | names/namegen.go:25-60 | k units spell between k and 2k lower-case letters, which keeps every array index in bounds |
| `Syllables.NextSyllable` | names/namegen.go:1413-1582 | Retries end on every finite supply of draws, and no syllable returned breaks a placement rule |
| `Syllables.RunSpends` | names/namegen.go:1420-1579 | Draws pay for everything: an attempt that gives up has spent its tries on draws, and every unit placed or carried out was drawn or carried in |
| `SyllableLaws.JudgeIsJustified` | names/namegen.go:1453-1566 | Whatever the rules decide about a unit keeps the invariant of the attempt, and closes a syllable only when it is good, with a carry that fits |
| `SyllableLaws.TryKeeps` | names/namegen.go:1432-1574 | One try of a unit, carried or drawn, keeps that invariant, including the number of letters left |
| `SyllableLaws.RunIsGood` | names/namegen.go:1429-1574 | An attempt closes only on a good syllable, from whatever pair an earlier attempt left behind |
| `SyllableLaws.SyllableIsGood` | names/namegen.go:1413-1582 | After any number of retries: not empty, not longer than asked for, the carry fits into the rest (with a letter to spare after a pair), a vowel unless the length is filled, no forbidden opening, no forbidden closing; which pairs it has inside says `SyllablePairs.SyllableIsWellPaired` |
| `SyllableLaws.SyllableConsumes` | names/namegen.go:1413-1582 | Units returned and carried never outnumber the draws used and the units carried in |
| `SyllableLaws.ExtendIsGood` | names/namegen.go:1744-1771 | The word loop keeps the accepted syllables good and the carry fitting, although rejected syllables overwrite the array and leave their carry |
| `SyllableLaws.WordIsGood` | names/namegen.go:1730-1774 | A word has exactly the requested length, no forbidden neighbours, no three consonant units, no three vowel units unless y leads them, a proper vowel in its first syllable, no forbidden final split, and nothing left to carry |
| `SyllableLaws.WordConsumes` | names/namegen.go:1744-1771 | A word of n letters uses draws, and giving up has used more than 4n + 34 of them |
| `SyllablePairs.RefusedIff` | names/namegen.go:1453-1515 | A unit is refused if and only if it does not fit, may not begin, may not stand behind the units placed, leaves a pair at the end that cannot end a name, or is a vowel too many |
| `SyllablePairs.SyllableIsWellPaired` | names/namegen.go:1413-1582 | In every syllable returned: no illegal pair; a prefix pair only behind a vowel; a break only with a vowel before it and no pair right before it that cannot end; an end with a vowel; no pair that begins behind an initial y; a pair that ends or begins syllables only where this one ends; and what is carried out of it, and why |
| `SyllablePairs.RunBeginsWithCarry` | names/namegen.go:1432-1447 | The units carried in open the attempt; the last of them is left out only if it is refused there |
| `WordSounds.SyllableIsPlaced` | names/namegen.go:1576-1578 | A closed attempt is returned if and only if any three units in a row are placed well: no three consonants, three vowels only behind an initial y, a later vowel behind a consonant only at the end |
| `WordSounds.TakenIff` | names/namegen.go:1758-1765 | A syllable is taken into the word if and only if all neighbours sound, the first one has a vowel that is no initial y, and one that completes the word does not split badly |
| `WordSounds.WordSounds` | names/namegen.go:1584-1638 | All of that holds of every word returned, across its syllables |
| `TryLimits.AttemptLimit` | names/namegen.go:1536-1572 | An attempt at n letters closes within 4n + 34 tries as it would without a limit, and gives up at try 4n + 35 exactly |
| `TryLimits.WordLimit` | names/namegen.go:1744-1771 | A word of n letters is complete after at most 4n + 34 generated syllables; the failure comes at syllable 4n + 35 exactly, even if that one completes the word |
| `Existence.SyllableFromQu` | names/namegen.go:1413-1582 | From a carried qu, chosen draws give qua, quab or quach and carry the next qu |
| `Existence.ClosesWord` | names/namegen.go:1744-1771 | From an open word and a carried qu, three or more missing letters are filled within the tries left |
| `Existence.SomeDrawsSucceed` | names/namegen.go:1730-1774 | For every length of at least 1 some draws make the program's generator return a word |
| `NameGen.GeneratorState.RandomUnit` | names/namegen.go:1406-1411 | One draw decides one unit, through the vowel table or the full one |
| `NameGen.GeneratorState.Examine` | names/namegen.go:1454-1534 | The nested rule tests refuse, accept or carry a unit as specified (`SyllablePairs.RefusedIff`), and write the carry into saved unit and saved pair |
| `NameGen.GeneratorState.PickUnit` | names/namegen.go:1433-1451 | A carried pair puts its older unit into the array and is used up; otherwise a carried unit or a draw is chosen |
| `NameGen.GeneratorState.TryUnit` | names/namegen.go:1432-1539 | One round of the innermost loop is one pick and one verdict; a refused unit gives its letters back |
| `NameGen.GeneratorState.TryUnits` | names/namegen.go:1432-1544 | The innermost loop is the specified run up to the first accepted unit or the last try |
| `NameGen.GeneratorState.PlaceUnit` | names/namegen.go:1546-1569 | Array, text, index, vowel count and letters left after a verdict: the unit placed, or it, or it and the unit before it, held back |
| `NameGen.GeneratorState.TrySyllable` | names/namegen.go:1421-1574 | One attempt computes the outcome of the specified run |
| `NameGen.GeneratorState.GenSyllable` | names/namegen.go:1413-1582 | Text, units in the array, carry and remaining draws are those of the specified syllable; its units are well paired; all indices are in bounds |
| `NameGen.IllegalPlacement` | names/namegen.go:1640-1678 | The counting loop decides whether a split between vowels, three consonants or three vowels occur anywhere |
| `NameGen.ImproperWord` | names/namegen.go:1584-1612 | The loop decides whether the word is pronounceable as a whole |
| `NameGen.HaveInitialY` | names/namegen.go:1614-1628 | The two counters decide whether there is no vowel but an initial y |
| `NameGen.HaveFinalSplit` | names/namegen.go:1630-1638 | The loop decides whether the only vowel is a last one that may not be split off |
| `NameGen.CopyUnits` | names/namegen.go:1751-1755 | The syllable stands behind the word; the length test of the loop never fails |
| `NameGen.Refuses` | names/namegen.go:1758-1760 | The three tests on lengths and arrays refuse a syllable exactly when the specified word does not take it |
| `NameGen.AddSyllable` | names/namegen.go:1745-1765 | The array holds exactly the accepted syllables after an accepted and after a rejected one |
| `NameGen.GenWord` | names/namegen.go:1730-1774 | The word, the failure at syllable 4n + 35 (`TryLimits.WordLimit`), or the end of the draws, exactly as specified |
| `NameGen.GeneratePronounceableName` | names/namegen.go:1782-1803 | Invalid lengths exactly outside 1 to 255, without a draw; otherwise the specified word of that length in lower-case letters |
| `NameGen.GenerateRandomString` | names/namegen.go:1811-1834 | One draw for each letter, the k-th draw selecting the k-th letter, exactly the requested length |
| `Casing.MatchCasing` | filter/replace.go:21-78 | The three loops compute the specified replacement, every character as `Casing.CasedAt` says |
| `Casing.CasedAt` | filter/replace.go:21-78 | An original of one case gives that case to every letter; one of both cases, or without letters, gives the case of each letter to the same place only, and nothing behind its end changes |
| `Casing.MatchCasedKeepsLetters` | filter/replace.go:21-78 | Casing changes nothing but case, and leaves other characters as they are |
| `Casing.MatchCasedIsCasedLike` | filter/replace.go:21-78 | A letter replacement at least as long as the original has its pattern of cases |
| `Casing.CaseSeparates` | filter/replace.go:102-109 | Two case variants of one name never share a key cased like both |
| `Table.DrawnIsWord` | filter/replace.go:121-142 | A drawn key consists of letters, has 8 of them for originals up to 8 characters, as many as the original up to 255, and 255 above, and is cased like the original |
| `Table.KeepsOneKeyEach` | filter/replace.go:90-144 | Every call keeps at most one key without a dot for each original and returns such a key, now mapped to the original |
| `Table.RepeatedCall` | filter/replace.go:93-100 | Asking again, with any input, returns the same key and changes nothing |
| `Table.LosesNoEntry` | filter/replace.go:93-142 | On a stable table no call overwrites an entry, the case-variant path included |
| `Table.KeepsStableIff` | filter/replace.go:102-142 | A call leaves a stable table stable if and only if no word is drawn, or one that is no key up to case, for an original of at most 255 characters |
| `Table.CollidingDrawLosesEntry` | filter/replace.go:133-142 | A drawn word that is a key in another casing passes the check, and later loses an entry |
| `TableClaims.ExemptIff` | README.md:236 | A name without a dot, entered for itself, is exempt if and only if no other key stands for it; one with a dot never is |
| `TableClaims.ExemptIffDotFree` | README.md:197 | Where every original has one key, a name entered for itself is exempt exactly if it has no dot |
| `TableClaims.SecondEntryIsReturned` | README.md:236 | A name entered for itself after it was redacted, on a stable table, and an answer that replaces it |
| `TableClaims.DottedNameIsReplaced` | README.md:236 | A name with a dot, entered for itself, and an answer that replaces it |
| `TableClaims.ExemptInAnyCaseIff` | filter/replace.go:90-144 | Another casing of such a name is left alone if and only if no key but itself stands for it or, where no key does, every key for a casing of it is a casing of it |
| `TableClaims.ExemptInAnyCase` | filter/replace.go:90-144 | Where all entries for the name stand for themselves it is exempt in every casing, and such a call keeps it so |
| `TableClaims.AvoidsInputIff` | filter/replace.go:93-142 | No answer open to a call occurs in the input if and only if no key does that already stands for the original, or, without one, that is adapted from another casing |
| `TableClaims.VariantCollidesWithInput` | filter/replace.go:102-109 | An instance: a key adapted to another casing occurs in the input |
| `Replace.NewWord` | filter/replace.go:122-129 | A lower-case word of the length asked for, random letters if no pronounceable word is found |
| `Replace.GetReplacement` | filter/replace.go:90-144 | Searching, adapting and drawing returns what the table allows, and adds exactly that entry; a word drawn is of the length said, not in the input and no key |
| `Replace.ReplaceAlternatives` | filter/replace.go:183-188 | Trying the keys in order at every position is leftmost-longest substitution without rescanning |
| `Replace.UnredactText` | filter/replace.go:147-189 | Collecting, sorting and scanning restores what the specification says, with an empty or missing table too |
| `Sorting.SortByLength` | filter/replace.go:163-165 | A rearrangement, longest first; ties in any order |
| `Unredaction.OrderDoesNotMatter` | filter/replace.go:153-173 | For every listing of the keys and every sort by length, the alternation finds the longest key that fits |
| `Unredaction.NothingToRestore` | filter/replace.go:183-188 | A text in which no key occurs is left alone |
| `Unredaction.RestoresApart` | filter/replace.go:183-188 | With letter keys, both sides of a character that is no letter are restored independently |
| `Pieces.CallsKeepStable` | filter/replace.go:90-144 | Over a whole scan no entry is lost, the table stays stable, and every replacement made is found at the end |
| `Pieces.StableThroughoutIff` | filter/replace.go:133-142 | A whole run keeps the table stable after every call if and only if every word drawn is separated from the keys |
| `Pieces.FinalKeysAvoid` | filter/replace.go:102-142 | If neither the first keys nor the drawn words occur in a text up to case, no final key does |
| `Pieces.CheckedKeysAvoidIff` | filter/replace.go:102-142 | A part of the input in which no key occurs at first holds no key of the final table if and only if no key adapted to another casing occurs in it |
| `RoundTrip.PeelsOff` | piiplugin/plugin.go:109-134 | One more pass undoes one more layer, whatever the layers below look like |
| `RoundTrip.RestoredIffQuiet` | filter/replace.go:183-188 | One layer is undone by one pass if and only if no key stands in a stretch left alone |
| `NameScan.UnquoteQuoteMeta` | filter/unique_names.go:40-43 | An escaped alternative matches exactly the listed name |
| `Patterns.QuotedIsEscaped` | filter/unique_names.go:40-43 | Every special character of an alternative is escaped, and nothing else |
| `Patterns.CharClasses` | filter/email/email.go:63 | The character classes of the expressions, by code point |
| `Patterns.OnlyListedNames` | filter/unique_names.go:60-62 | Nothing but listed names, in some casing, is replaced |
| `NameScan.QuotedLongerToo` | filter/unique_names.go:40-46 | Of two names of which one begins like the other up to case, the longer is longer escaped too |
| `NameScan.OrderFindsLongest` | filter/unique_names.go:40-49 | Alternatives ordered by escaped length find the longest listed name that fits as a whole word |
| `NameScan.MatchStandsAlone` | filter/unique_names.go:47 | A match has no word character next to it |
| `NameScan.ScansSource` | filter/unique_names.go:60-62 | A scan takes the text apart without loss |
| `NameLaws.ScanIsFlanked` | filter/unique_names.go:56-63 | Replacements touch neither each other nor any letter |
| `NameLaws.NoNameIsLeft` | filter/unique_names.go:53-63 | After redaction, wherever the letters of a listed name stand, in any casing, a word character comes right before or right behind them |
| `NameLaws.NoNameComesBack` | piiplugin/plugin.go:110-118 | A later filter whose replacements are not part of listed names brings none of them back |
| `UniqueNames.UniqueNamesFilter.constructor` | filter/unique_names.go:20-30 | The expression matches exactly the given names |
| `UniqueNames.UniqueNamesFilter.InitRegex` | filter/unique_names.go:35-51 | Escaping and sorting keep the names, longest escaped first |
| `UniqueNames.ReplaceNames` | filter/unique_names.go:60-62 | The scan with growing table makes the specified pieces, calls and entries |
| `UniqueNames.UniqueNamesFilter.Redact` | filter/unique_names.go:56-63 | The output and the table are those of a scan for the names, and no listed name stands alone in the output, in any casing |
| `UniqueNames.UniqueNamesFilter.Unredact` | filter/unique_names.go:66-68 | One pass with the shared table |
| `EmailScan.JoinSplit` | filter/email/email.go:79-86 | Joining the parts between dots gives the text back |
| `Patterns.MatchAtIff` | filter/email/email.go:63 | An address begins exactly at a word boundary from which characters of a local part lead to an at sign and a label |
| `Patterns.MatchEndIs` | filter/email/email.go:63 | Its domain has labels that are not empty, between dots, and goes on for as long as possible |
| `EmailLaws.DomainHasNoEmptyLabel` | filter/email/email.go:63 | The domain of a match has no empty label, so the last label always exists |
| `EmailLaws.InnerAlike` | filter/email/email.go:103-104 | A match looked at by itself has the same at sign and end |
| `EmailLaws.DomainLaws` | filter/email/email.go:79-143 | The pieces of a domain stand apart and make up the domain, for every map of suffixes |
| `EmailLaws.WholeMatch` | filter/email/email.go:103-143 | A match that begins with a word character is redacted as a whole, label by label |
| `EmailLaws.ScanIsTidy` | filter/email/email.go:101-144 | With addresses spaced, redaction changes labels and top-level domains only, each apart from every letter, for every map of suffixes |
| `EmailShape.LabelsKeepShape` | filter/email/email.go:88-98 | Redacted labels have the same dots and the same empty labels, every other label is replaced in its place, and there is no at sign |
| `EmailShape.DomainKeepsShape` | filter/email/email.go:79-143 | Of two labels or more the last one, if it consists of letters, stays when neither its lower-case form nor the asterisk is in the map, and gives way to the value of the one or else the other, recorded with the label before it; all labels before it, and in every other case all labels, are replaced in their places |
| `EmailShape.AddressKeepsShape` | filter/email/email.go:110-143 | A redacted address keeps its at sign, the dots and the empty labels; the other labels of its local part are replaced in their places |
| `EmailShape.LosesIff` | filter/email/email.go:103-107 | A match loses characters exactly if it begins with no word character and has one further on in its local part |
| `EmailShape.LostForGood` | filter/email/email.go:103-107 | A character that stands in dropped parts only never comes back |
| `EmailShape.AdjacentAddressIsNotRestored` | filter/email/email.go:103-107 | a@b+c@d is never restored, whatever is drawn |
| `Witnesses.AdjacentRun` | filter/email/email.go:101-144 | A run on a@b+c@d that the code can make |
| `Email.EmailFilter.AnonymizeLabels` | filter/email/email.go:88-98 | One call for each label that is not empty, in order; joined with dots they are the output of the pieces |
| `Email.EmailFilter.RedactDomain` | filter/email/email.go:113-143 | The domain's pieces, its calls, and the combined entry for label and top-level domain, which one is as `EmailShape.DomainKeepsShape` says |
| `Email.EmailFilter.RedactMatch` | filter/email/email.go:103-143 | A match is matched once more by itself; what that leaves out is dropped |
| `Email.EmailFilter.Redact` | filter/email/email.go:101-144 | Output and table are those of a scan for addresses (`Patterns.MatchAtIff`, `EmailShape.DomainKeepsShape`) |
| `Email.EmailFilter.Unredact` | filter/email/email.go:147-149 | One pass with the shared table |
| `SuffixLaws.LedgerKept` | filter/email/email.go:101-144 | Over a whole run every key is a label key or the combined key of a replacement that was made, and no label entry is lost |
| `SuffixLaws.WrittenIsTaken` | filter/replace.go:163-165 | A replacement together with what was written behind it, a suffix or nothing, is the longest key there unless a longer suffix follows |
| `SuffixLaws.PassRestores` | filter/replace.go:183-188 | A pass restores piece by piece what the table holds |
| `SuffixLaws.OwnIffOneDomain` | filter/email/email.go:138-140 | The combined entries survive exactly if no label appears with two top-level domains behind one suffix |
| `SuffixLaws.SuffixRoundTripIff` | filter/email/email.go:101-149 | For every map of suffixes the text comes back if and only if no label appears with two top-level domains behind one suffix |
| `SuffixLaws.OneSuffixRoundTripIff` | filter/email/email.go:101-149 | One suffix for all, of any form: the same where no replaced label stands in front of a dot and the suffix |
| `SuffixLaws.AlphaSuffixRoundTripIff` | filter/email/email.go:101-149 | One alphabetic suffix: the same where no replacement begins with it |
| `SuffixLaws.SuffixRoundTripLater` | filter/email/email.go:101-149 | The same for every text among many redacted on one table, with inputs of their own |
| `SuffixFilter.RedactThenUnredact` | filter/email/email.go:101-149 | The filter with any map of suffixes, used by itself: restored if and only if no label had two top-level domains behind one suffix |
| `SuffixPasses.SamePasses` | filter/replace.go:147-189 | Passes over a text in which no suffix comes up do what they would without the combined entries |
| `SuffixPasses.OncePass` | filter/replace.go:147-189 | The first pass brings back every replacement of the last layer, with its top-level domain, and unredacts the stretches between breaks by label entries alone |
| `SuffixPasses.OnceIsFree` | filter/replace.go:147-189 | Stretches that have seen different numbers of passes still make up no suffix where they meet |
| `SuffixPasses.SuffixesPeelOff` | filter/email/email.go:101-149 | A layer of addresses with suffixes is undone by the first pass, whatever the layers below look like |
| `SuffixPasses.LayerStaysFree` | filter/unique_names.go:56-68 | A layer of names brings no suffix up, after any number of passes |
| `SuffixLayers.ChainKeepsSpacing` | filter/email/email.go:63 | Behind filters for names of letters and digits the addresses are well spaced exactly if they are in the text |
| `SuffixLayers.ChainIsUndone` | README.md:190-211 | The filters for user names, host names and addresses with suffixes, in this order on one table used before or since: one pass for each restores the text |
| `SuffixLayers.ChainRoundTrip` | README.md:190-211 | The same from a first table, each filter with an input of its own |
| `SuffixFilter.RedactThenUnredactInTurn` | README.md:190-211 | Three filters created one by one, called in a row and undone by one pass each, give the text back |
| `PiiLaws.LayerIsTidy` | piiplugin/plugin.go:109-120 | Every filter replaces whole stretches between characters that stay and are no letters |
| `PiiLaws.LayerIsUndone` | piiplugin/plugin.go:123-134 | A filter adds one pass to what undoes the filters before it |
| `PiiLaws.RunKeepsTable` | piiplugin/plugin.go:109-120 | Three filters over one table lose no entry and leave it stable |
| `PiiLaws.LayeredRoundTrip` | piiplugin/plugin.go:109-134 | With any subset of the filters enabled, as many passes as filters restore the text, on the final table or a later one |
| `Spacing.SpacedCarriesOver` | filter/email/email.go:63 | Replacing words by words of letters and digits leaves addresses where they are: well spaced before if and only if after |
| `InputLaws.NamesKeepSpacing` | piiplugin/plugin.go:110-114 | So the mail filter finds well spaced addresses behind the user name filter exactly if the input has them |
| `InputLaws.InputRoundTrip` | piiplugin/plugin.go:109-134 | The layered round trip with hypotheses on the input: spaced addresses, no key at first in it, no key adapted to another casing in it |
| `InputLaws.NoNameIsLeftInRun` | piiplugin/plugin.go:109-120 | In what the composite returns no listed user or host name stands, in any casing, without a word character next to it |
| `PiiLaws.AnswersItselfIff` | filter/replace.go:90-144 | Asked for one of its keys, the table answers with that key if and only if the key stands for itself |
| `PiiLaws.MailKeepsReplacementIff` | README.md:61-62 | In a run of the composite the mail filter keeps the replacement of a user name if and only if the name stands for itself |
| `PiiLaws.MailReplacesAgain` | README.md:61-62 | Where no table entry stands for itself at first and the input covers the text, the mail filter replaces the replacement of a user name in any case |
| `Witnesses.UserNameIsReplacedTwice` | piiplugin/plugin.go:109-120 | A run on tux@b in which the user name is replaced and its replacement replaced again |
| `PiiLaws.LayerRoundTripIff` | filter/replace.go:147-189 | A filter for names, or for addresses, restores the text if and only if no key of the final table stands in a stretch left alone |
| `PiiFilter.PiiFilter.constructor` | piiplugin/plugin.go:75-104 | A filter for each kind that is not disabled, all over one empty table |
| `PiiFilter.PiiFilter.Redact` | piiplugin/plugin.go:109-120 | User names, then addresses, then hosts, each on what the one before made |
| `PiiFilter.PiiFilter.Unredact` | piiplugin/plugin.go:123-134 | One pass for each enabled filter |
| `PiiFilter.RedactThenUnredact` | piiplugin/plugin.go:109-134 | The composite, called twice in a row, gives the text back |
| `Payload.LogKeepsTable` | piiplugin/adk/redactor.go:120-128 | From string to string the table loses no entry and stays stable |
| `Payload.EveryTextRestored` | piiplugin/adk/redactor.go:113-128 | Every string redacted along the way is restored with the final table |
| `Payload.PayloadRoundTrip` | piiplugin/adk/redactor.go:113-128 | The whole payload is restored, in whatever order its strings were visited |
| `PayloadInput.SpacedIsSeparated` | piiplugin/adk/redactor.go:120-128 | What is said of the strings that are redacted, before any filter, covers every filter of every string |
| `PayloadInput.LeavesAvoidIff` | filter/replace.go:102-142 | If the input covers the payload, no key of the final table occurs in its strings if and only if none does at first and no adapted one does |
| `PayloadInput.PayloadInputRoundTrip` | piiplugin/adk/redactor.go:113-128 | The payload round trip with hypotheses on the payload that comes in: spaced addresses, no key at first and no adapted key in its strings |
| `Payload.LeafVisited` | filter/values.go:13-40 | Every string of a mapped payload has been visited |
| `Payload.TreeIsUnredacted` | filter/values.go:13-40 | Unredacting every string is unredacting the payload, shape and other values untouched |
| `Values.Apply` | filter/values.go:20-23 | One string handed to the function, with the state the function changes and one entry in the log |
| `Values.MapToolValues` | filter/values.go:13-17 | In any order of the keys every string is visited once and replaced in place by what the function made of it, and the state is that of the calls in sequence |
| `Values.MapEntry` | filter/values.go:14-16 | One entry is replaced in place, the others stay |
| `Values.MapValue` | filter/values.go:20-40 | A string is replaced, a container changed in place, anything else kept |
| `Values.MapSlice` | filter/values.go:26-29 | The same for a slice, element by element from the front |
| `Values.MapStringMap` | filter/values.go:30-33 | The same for a map of strings |
| `Values.MapStringSlice` | filter/values.go:34-37 | The same for a slice of strings, from the front |
| `Visits.VisitedIsMapped` | filter/values.go:13-40 | A log with one entry for each string, in the order of the visits and nothing else, maps the payload |
| `Redactor.ToolValuesText` | filter/values.go:45-53 | The text contains every string of the payload, and the payload stays |
| `Redactor.BeforeToolCallback` | piiplugin/adk/redactor.go:113-116 | The arguments become the unredacted arguments, the table stays |
| `Redactor.RedactBoth` | piiplugin/adk/redactor.go:122-126 | First every string of the arguments, then every string of the result, each once, on one growing table |
| `Redactor.AfterToolCallback` | piiplugin/adk/redactor.go:120-128 | The same, checked against all the text of both |
| `Redactor.AfterThenBefore` | piiplugin/adk/redactor.go:113-128 | Redacted after one call and restored before the next, both payloads are what they were |
| `ModelCallbacks.FullInputText` | piiplugin/adk/redactor.go:52-70 | The texts of all parts in order, each with a space behind it |
| `ModelCallbacks.BeforeModelCallback` | piiplugin/adk/redactor.go:73-90 | Every part that is not empty is redacted once, in order, checked against the text of all of them |
| `ModelCallbacks.AfterModelCallback` | piiplugin/adk/redactor.go:93-104 | Every part is unredacted |
| `ModelCallbacks.RequestThenResponse` | piiplugin/adk/redactor.go:73-104 | A request sent back as the response is restored |

## Left out

- Callback registration, missing requests, contents and parts, error plumbing: the parts of all contents
  are taken as one list without the missing ones.
- `OnToolErrorCallback` and `OnModelErrorCallback`: one call of the composite, and a pass-through.
- User database, host lookup, DNS: the resulting name lists are inputs of the constructors.
- `MapStore`, `FileStore`, `utils`, the agent demo and the command-line programs: not used by the filters.
- Option setters, and the lower-casing of suffix keys: the filters are constructed from their settings.
- The reversing test mode of `GetReplacement` and the fallback when an expression does not compile.
- Characters outside ASCII: letters, case and word boundaries are those of ASCII.
- The weights of the draw tables: only which units a draw can give.
- Random draws without end: a method that runs out of draws is not ok, where the program would go on; the
  redacted prefix made so far is then not described.
- Payloads that reach one container twice, and lists that hold one part twice.
- Empty listed names: an empty alternative would match everywhere without taking a character.
- Suffixes in the composite: it is constructed without them.
- SuffixLayers.ChainRoundTrip: that no label has two top-level domains behind one suffix is shown to be enough,
  and needed only for the address filter by itself (`SuffixLaws.SuffixRoundTripIff`); the address filter is the
  last one, as where the documentation creates the filters one by one.
- Key lengths of the table in bytes: characters and bytes are the same in ASCII.
