# Author and Post field validation, modelled in Dafny

The blog application keeps two kinds of record, **Author** and **Post**. When
a value is assigned to a column, a validator runs on it. It either hands the
value back unchanged or refuses it with a `ValueError`. This project models
the six validators of `server/models.py` as pure Dafny functions and proves
exactly which values each one accepts:

- Author: `validate_name` and `validate_phone_number`.
- Post: `validate_title`, `validate_content`, `validate_summary` and `validate_category`.

It also models record creation through `MakeAuthor` and `MakePost`. As a
modelling choice these assign every column, one after the other, so in the
model creation succeeds exactly when every field validator does. The records
themselves have no constructor of their own: the database layer's default
constructor sets only the keyword arguments it is given.

Layout:

- `wrappers.dfy` (module `Wrappers`): `Option` (`None` is Python's `None`)
  and `Result`, which carries the accepted value or the refusal.
- `text.dfy` (module `Text`): the two Python string operations the validators
  use. `str.isdigit()` becomes `IsDigits`, and the substring test
  `needle in haystack` becomes `Contains`. Each comes with its declarative
  specification and the proof that the two agree.
- `models.dfy` (module `Models`): the refusal reasons (`ValidationError`),
  the constants, the six validators, the `Author` and `Post` records with
  `MakeAuthor`/`MakePost`, and the lemmas about them.

Each validator takes the assigned value as an `Option<string>`. A refusal is
a distinct `ValidationError` variant rather than a message text. Calling
`len` on an absent content or summary raises a `TypeError` in Python, not a
validation error. The model keeps that case apart as `LengthOfNone`.

## Model

| member | source | states |
|---|---|---|
| `Text.IsDigits` | server/models.py:24 | `str.isdigit()`: true iff the string is non-empty and every character is an ASCII digit |
| `Text.ContainsIffHasSubstring` | server/models.py:55 | the substring test `keyword in title` holds iff some window of the title equals the keyword |
| `Text.FirstCharAbsentNeverContained` | server/models.py:55 | a keyword whose first character does not appear in the title is not contained in it |
| `Text.AnyContainedIffSomeKeyword` | server/models.py:54-55 | `any(keyword in title for keyword in keywords)` holds iff one of the listed keywords occurs in the title |
| `Models.ValidateName` | server/models.py:16-20 | accepts iff the name is present and non-empty; otherwise refuses with `MissingName`; an accepted name is returned unchanged |
| `Models.ValidatePhoneNumber` | server/models.py:22-28 | accepts iff the value is present, exactly 10 characters long and all digits; otherwise refuses with `InvalidPhoneNumber`; returns the value unchanged |
| `Models.ValidateTitle` | server/models.py:48-60 | an absent or empty title is refused with `MissingTitle` before any keyword check; any other refusal is `NotClickbait`; an accepted title is returned unchanged |
| `Models.ClickbaitCheckIffIsClickbait` | server/models.py:54-55 | the `any(...)` over the keyword list is equivalent to the four-way disjunction of substring tests for "Won't Believe", "Secret", "Top" and "Guess" |
| `Models.ValidateTitleAcceptsIff` | server/models.py:54-58 | a non-empty title is accepted iff it contains one of the four keywords, case-sensitively, as a substring; otherwise the error is `NotClickbait` |
| `Models.ClickbaitTitleIsNonEmpty` | server/models.py:50-55 | every keyword is non-empty, so any title holding a keyword is non-empty; the emptiness check only chooses the error |
| `Models.KeywordOccurrenceAccepted` | server/models.py:54-60 | a title in which any keyword occurs at any position is accepted unchanged ("Top" with no number after it suffices) |
| `Models.NoKeywordInitialRejected` | server/models.py:54-58 | a non-empty title with none of the letters W, S, T, G is refused with `NotClickbait` |
| `Models.ValidateContent` | server/models.py:62-66 | a present content is accepted iff its length is at least 250, otherwise `ContentTooShort`; an absent content fails with `LengthOfNone`; returns the value unchanged |
| `Models.ValidateSummary` | server/models.py:68-72 | a present summary is accepted iff its length is at most 250, with no lower bound, otherwise `SummaryTooLong`; an absent summary fails with `LengthOfNone`; returns the value unchanged |
| `Models.ValidateCategory` | server/models.py:74-81 | accepts iff the value is exactly "Fiction" or "Non-Fiction"; everything else, absent values included, is refused with `InvalidCategory` |
| `Models.ValidatorsAreIdempotent` | server/models.py:20 | each of the six validators returns its input on success (lines 20, 28, 60, 66, 72, 81), so validating the returned value again gives the same success |
| `Models.MakeAuthor` | server/models.py:16-28 | creating an author succeeds iff both the name and the phone validator accept; the record holds the given values and satisfies `ValidAuthor`; a name refusal is reported before a phone refusal |
| `Models.MakePost` | server/models.py:48-81 | creating a post succeeds iff all four validators accept; the record holds the given values; the first refusal in the order title, content, category, summary is the one reported, down to a summary refusal when the other three pass |
| `Models.MakePostSucceedsIffValid` | server/models.py:48-81 | a post is created iff all four values are present and together satisfy `ValidPost`, the declarative statement of the four column rules |
| `Models.MakeAuthorRoundTrip` | server/models.py:16-28 | every author satisfying `ValidAuthor` is created from exactly its own column values |
| `Models.MakePostRoundTrip` | server/models.py:48-81 | every post satisfying `ValidPost` is created from exactly its own column values |
| `Models.PhoneNumberExamples` | server/models.py:24-28 | ten digits pass; nine digits, eleven digits, a dash, "" and an absent value are refused |
| `Models.LengthBoundaries` | server/models.py:64-72 | content of length 250 passes and 249 fails; a summary of length 250 passes, 251 fails, and "" passes |
| `Models.CategoryExamples` | server/models.py:76-77 | "Fiction" and "Non-Fiction" pass; "fiction", "Non-fiction", "" and an absent value are refused |
| `Models.TitleExamples` | server/models.py:50-60 | "Top" and "You Won't Believe This" pass; "My Day" and "top secret" (wrong case) fail with `NotClickbait`; "" and an absent title fail with `MissingTitle` |
| `Models.PostExamples` | server/models.py:48-81 | "Top 10 Secrets" with 300 characters of content, category "Fiction" and summary "ok" is created; the same post titled "My Day" is refused with `NotClickbait` |

## Left out

- Persistence schema: column types, table names, primary keys, the foreign key from posts to authors and the relationship between them (server/models.py:1-14, 34-46). They are declarations for the database layer, which is not part of this model.
- Uniqueness of `Author.name`: the database enforces it, not the validator.
- `created_at`/`updated_at`: the database clock sets them.
- The `@validates` hook: each validator is modelled as a direct call on the assigned value. A column that is never assigned is never validated. The model does not represent that case: `MakeAuthor` and `MakePost` always assign every column.
- MakeAuthor, MakePost: the order in which the default constructor assigns keyword arguments is the caller's. The model fixes the column declaration order (name, phone number for an author; title, content, category, summary for a post). This order only decides which error is reported first. Whether creation succeeds does not depend on it.
- `__repr__` (server/models.py:30-31, 83-84): it only formats text.
- The exact error message texts are replaced by distinct `ValidationError` variants. The title message mentions "Top [number]", but the code only checks for the substring "Top", and the model follows the code.
- `LengthOfNone`: `len(None)` in `validate_content`/`validate_summary` raises a `TypeError`, not a `ValueError`. The model reports it as a separate refusal instead of an exception of another kind.
- Text.IsDigits: Python's `str.isdigit` also accepts non-ASCII digits, such as superscripts and digits of other scripts. The model accepts only '0' to '9'.
- Python truthiness is modelled for strings and `None` only. Values of other types assigned to these columns are not modelled.
