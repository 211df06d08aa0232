/**
 * The Author and Post records of the blog application and the field
 * validators that run when a value is assigned to one of their columns.
 * Every validator is a pure decision on one value: it hands the value back
 * unchanged or refuses it with a `ValidationError`.
 */
module Models {
  import opened Wrappers
  import opened Text

  /** Why a value was refused; one variant per raised error. */
  datatype ValidationError =
    | MissingName          // the name is absent or empty
    | InvalidPhoneNumber   // not exactly ten digits
    | MissingTitle         // Post must have a title
    | NotClickbait         // title holds none of the clickbait keywords
    | ContentTooShort      // content shorter than MIN_CONTENT_LENGTH
    | SummaryTooLong       // summary longer than MAX_SUMMARY_LENGTH
    | InvalidCategory      // category outside ALLOWED_CATEGORIES
    | LengthOfNone         // the length of an absent content or summary was asked for

  const PHONE_NUMBER_LENGTH := 10
  const MIN_CONTENT_LENGTH := 250
  const MAX_SUMMARY_LENGTH := 250
  const CLICKBAIT_KEYWORDS: seq<string> := ["Won't Believe", "Secret", "Top", "Guess"]
  const ALLOWED_CATEGORIES: seq<string> := ["Fiction", "Non-Fiction"]

  /** Python's `not value` on an optional string: true for `None` and for "". */
  predicate IsBlank(value: Option<string>) {
    value.None? || value.value == ""
  }

  // ---------------------------------------------------------------------------
  // Specifications of the accepted values
  // ---------------------------------------------------------------------------

  /** Exactly ten characters, every one a decimal digit. */
  ghost predicate IsPhoneNumber(s: string) {
    |s| == PHONE_NUMBER_LENGTH && forall i :: 0 <= i < |s| ==> IsDigit(s[i])
  }

  /** The title holds one of the four keywords, case-sensitively, anywhere in it. */
  ghost predicate IsClickbait(title: string) {
    || HasSubstring(title, "Won't Believe")
    || HasSubstring(title, "Secret")
    || HasSubstring(title, "Top")
    || HasSubstring(title, "Guess")
  }

  // ---------------------------------------------------------------------------
  // Author validators
  // ---------------------------------------------------------------------------

  /** `Author.validate_name`: any non-empty name is accepted as it is. */
  function ValidateName(name: Option<string>): (r: Result<string, ValidationError>)
    ensures r.Success? <==> name.Some? && |name.value| > 0
    ensures r.Success? ==> r.value == name.value
    ensures r.Failure? ==> r.error == MissingName
  {
    if IsBlank(name) then Failure(MissingName) else Success(name.value)
  }

  /** `Author.validate_phone_number`: present, all digits, and exactly ten characters. */
  function ValidatePhoneNumber(phone: Option<string>): (r: Result<string, ValidationError>)
    ensures r.Success? <==> phone.Some? && IsPhoneNumber(phone.value)
    ensures r.Success? ==> r.value == phone.value
    ensures r.Failure? ==> r.error == InvalidPhoneNumber
  {
    if IsBlank(phone) || !IsDigits(phone.value) || |phone.value| != PHONE_NUMBER_LENGTH then
      Failure(InvalidPhoneNumber)
    else
      Success(phone.value)
  }

  // ---------------------------------------------------------------------------
  // Post validators
  // ---------------------------------------------------------------------------

  /**
   * `Post.validate_title`: the emptiness check comes first, then the keyword
   * check; an accepted title is returned as it is.
   */
  function ValidateTitle(title: Option<string>): (r: Result<string, ValidationError>)
    ensures IsBlank(title) ==> r == Failure(MissingTitle)
    ensures !IsBlank(title) ==> r.Success? || r.error == NotClickbait
    ensures r.Success? ==> r.value == title.value
  {
    if IsBlank(title) then Failure(MissingTitle)
    else if !AnyContained(CLICKBAIT_KEYWORDS, title.value) then Failure(NotClickbait)
    else Success(title.value)
  }

  /** The keyword check over the list is the disjunction of the four substring tests. */
  lemma ClickbaitCheckIffIsClickbait(title: string)
    ensures AnyContained(CLICKBAIT_KEYWORDS, title) <==> IsClickbait(title)
  {
    AnyContainedIffSomeKeyword(CLICKBAIT_KEYWORDS, title);
    if IsClickbait(title) {
      if HasSubstring(title, "Won't Believe") {
        assert CLICKBAIT_KEYWORDS[0] == "Won't Believe";
      } else if HasSubstring(title, "Secret") {
        assert CLICKBAIT_KEYWORDS[1] == "Secret";
      } else if HasSubstring(title, "Top") {
        assert CLICKBAIT_KEYWORDS[2] == "Top";
      } else {
        assert CLICKBAIT_KEYWORDS[3] == "Guess";
      }
    }
  }

  /**
   * A present, non-empty title is accepted iff it holds one of the four
   * keywords; "Top" on its own suffices, with no number after it.
   */
  lemma ValidateTitleAcceptsIff(title: string)
    requires title != ""
    ensures ValidateTitle(Some(title)).Success? <==> IsClickbait(title)
    ensures ValidateTitle(Some(title)).Failure? ==> ValidateTitle(Some(title)).error == NotClickbait
  {
    ClickbaitCheckIffIsClickbait(title);
  }

  /**
   * Every keyword is non-empty, so a title that passes the keyword check is
   * non-empty too: the emptiness check only decides which error is raised.
   */
  lemma ClickbaitTitleIsNonEmpty(title: string)
    requires IsClickbait(title)
    ensures title != ""
  {
  }

  /**
   * `Post.validate_content`: at least MIN_CONTENT_LENGTH characters; an
   * absent content fails on its length before any comparison.
   */
  function ValidateContent(content: Option<string>): (r: Result<string, ValidationError>)
    ensures content.None? ==> r == Failure(LengthOfNone)
    ensures content.Some? ==> (r.Success? <==> |content.value| >= MIN_CONTENT_LENGTH)
    ensures content.Some? && r.Failure? ==> r.error == ContentTooShort
    ensures r.Success? ==> r.value == content.value
  {
    match content
    case None => Failure(LengthOfNone)
    case Some(s) => if |s| < MIN_CONTENT_LENGTH then Failure(ContentTooShort) else Success(s)
  }

  /**
   * `Post.validate_summary`: at most MAX_SUMMARY_LENGTH characters, with no
   * lower bound; an absent summary fails on its length.
   */
  function ValidateSummary(summary: Option<string>): (r: Result<string, ValidationError>)
    ensures summary.None? ==> r == Failure(LengthOfNone)
    ensures summary.Some? ==> (r.Success? <==> |summary.value| <= MAX_SUMMARY_LENGTH)
    ensures summary.Some? && r.Failure? ==> r.error == SummaryTooLong
    ensures r.Success? ==> r.value == summary.value
  {
    match summary
    case None => Failure(LengthOfNone)
    case Some(s) => if |s| > MAX_SUMMARY_LENGTH then Failure(SummaryTooLong) else Success(s)
  }

  /** `Post.validate_category`: exact, case-sensitive membership in ALLOWED_CATEGORIES. */
  function ValidateCategory(category: Option<string>): (r: Result<string, ValidationError>)
    ensures r.Success? <==> category == Some("Fiction") || category == Some("Non-Fiction")
    ensures r.Success? ==> r.value == category.value
    ensures r.Failure? ==> r.error == InvalidCategory
  {
    if category.None? || category.value !in ALLOWED_CATEGORIES then Failure(InvalidCategory)
    else Success(category.value)
  }

  // ---------------------------------------------------------------------------
  // Properties shared by all validators
  // ---------------------------------------------------------------------------

  /**
   * Every validator hands back the very value it was given, so validating an
   * accepted value again accepts it again with the same result.
   */
  lemma ValidatorsAreIdempotent(value: Option<string>)
    ensures ValidateName(value).Success? ==> ValidateName(Some(ValidateName(value).value)) == ValidateName(value)
    ensures ValidatePhoneNumber(value).Success? ==>
      ValidatePhoneNumber(Some(ValidatePhoneNumber(value).value)) == ValidatePhoneNumber(value)
    ensures ValidateTitle(value).Success? ==> ValidateTitle(Some(ValidateTitle(value).value)) == ValidateTitle(value)
    ensures ValidateContent(value).Success? ==>
      ValidateContent(Some(ValidateContent(value).value)) == ValidateContent(value)
    ensures ValidateSummary(value).Success? ==>
      ValidateSummary(Some(ValidateSummary(value).value)) == ValidateSummary(value)
    ensures ValidateCategory(value).Success? ==>
      ValidateCategory(Some(ValidateCategory(value).value)) == ValidateCategory(value)
  {
  }

  // ---------------------------------------------------------------------------
  // Records
  // ---------------------------------------------------------------------------

  /** The validated columns of an author. */
  datatype Author = Author(name: string, phoneNumber: string)

  /** The validated columns of a post, in the order they are declared. */
  datatype Post = Post(title: string, content: string, category: string, summary: string)

  /** Every column of the author satisfies its validator's rule. */
  ghost predicate ValidAuthor(a: Author) {
    a.name != "" && IsPhoneNumber(a.phoneNumber)
  }

  /**
   * Every column of the post satisfies its validator's rule. A clickbait
   * title is never empty (ClickbaitTitleIsNonEmpty), so no separate
   * emptiness conjunct is needed for the title.
   */
  ghost predicate ValidPost(p: Post) {
    && IsClickbait(p.title)
    && |p.content| >= MIN_CONTENT_LENGTH
    && (p.category == "Fiction" || p.category == "Non-Fiction")
    && |p.summary| <= MAX_SUMMARY_LENGTH
  }

  /**
   * Creating an author assigns the name and then the phone number; each
   * assignment runs its validator and the first refusal aborts the creation.
   */
  function MakeAuthor(name: Option<string>, phone: Option<string>): (r: Result<Author, ValidationError>)
    ensures r.Success? <==> ValidateName(name).Success? && ValidatePhoneNumber(phone).Success?
    ensures r.Success? ==> r.value == Author(name.value, phone.value) && ValidAuthor(r.value)
    ensures r.Failure? ==> r.error == if ValidateName(name).Failure? then MissingName else InvalidPhoneNumber
  {
    var n :- ValidateName(name);
    var p :- ValidatePhoneNumber(phone);
    Success(Author(n, p))
  }

  /**
   * Creating a post assigns title, content, category and summary in that
   * order; each assignment runs its validator and the first refusal aborts
   * the creation with that validator's error.
   */
  function MakePost(title: Option<string>, content: Option<string>, category: Option<string>,
                    summary: Option<string>): (r: Result<Post, ValidationError>)
    ensures r.Success? <==>
      && ValidateTitle(title).Success?
      && ValidateContent(content).Success?
      && ValidateCategory(category).Success?
      && ValidateSummary(summary).Success?
    ensures r.Success? ==> r.value == Post(title.value, content.value, category.value, summary.value)
    ensures ValidateTitle(title).Failure? ==> r == Failure(ValidateTitle(title).error)
    ensures ValidateTitle(title).Success? && ValidateContent(content).Failure? ==>
      r == Failure(ValidateContent(content).error)
    ensures ValidateTitle(title).Success? && ValidateContent(content).Success? && ValidateCategory(category).Failure? ==>
      r == Failure(InvalidCategory)
    ensures && ValidateTitle(title).Success? && ValidateContent(content).Success?
            && ValidateCategory(category).Success? && ValidateSummary(summary).Failure? ==>
      r == Failure(ValidateSummary(summary).error)
  {
    var t :- ValidateTitle(title);
    var c :- ValidateContent(content);
    var g :- ValidateCategory(category);
    var s :- ValidateSummary(summary);
    Success(Post(t, c, g, s))
  }

  /** A post is created exactly when every supplied value satisfies its column's rule. */
  lemma MakePostSucceedsIffValid(title: Option<string>, content: Option<string>, category: Option<string>,
                                 summary: Option<string>)
    ensures MakePost(title, content, category, summary).Success? <==>
      && title.Some? && content.Some? && category.Some? && summary.Some?
      && ValidPost(Post(title.value, content.value, category.value, summary.value))
  {
    if title.Some? && title.value != "" {
      ValidateTitleAcceptsIff(title.value);
    }
  }

  /** Any author whose columns satisfy their rules can be created from exactly those values. */
  lemma MakeAuthorRoundTrip(a: Author)
    requires ValidAuthor(a)
    ensures MakeAuthor(Some(a.name), Some(a.phoneNumber)) == Success(a)
  {
  }

  /** Any post whose columns satisfy their rules can be created from exactly those values. */
  lemma MakePostRoundTrip(p: Post)
    requires ValidPost(p)
    ensures MakePost(Some(p.title), Some(p.content), Some(p.category), Some(p.summary)) == Success(p)
  {
    ValidateTitleAcceptsIff(p.title);
  }

  // ---------------------------------------------------------------------------
  // Boundary cases and worked examples
  // ---------------------------------------------------------------------------

  /** Nine or eleven digits, a non-digit, or no value at all are refused; ten digits pass. */
  lemma PhoneNumberExamples()
    ensures ValidatePhoneNumber(Some("5551234567")) == Success("5551234567")
    ensures ValidatePhoneNumber(Some("555123456")) == Failure(InvalidPhoneNumber)
    ensures ValidatePhoneNumber(Some("55512345678")) == Failure(InvalidPhoneNumber)
    ensures ValidatePhoneNumber(Some("555-123-45")) == Failure(InvalidPhoneNumber)
    ensures ValidatePhoneNumber(Some("")) == Failure(InvalidPhoneNumber)
    ensures ValidatePhoneNumber(None) == Failure(InvalidPhoneNumber)
  {
    assert !IsDigit("555-123-45"[3]);
  }

  /** Content of 250 characters passes and 249 fails; a summary of 250 passes, 251 fails, "" passes. */
  lemma LengthBoundaries()
    ensures ValidateContent(Some(seq(250, _ => 'a'))).Success?
    ensures ValidateContent(Some(seq(249, _ => 'a'))) == Failure(ContentTooShort)
    ensures ValidateSummary(Some(seq(250, _ => 'a'))).Success?
    ensures ValidateSummary(Some(seq(251, _ => 'a'))) == Failure(SummaryTooLong)
    ensures ValidateSummary(Some("")) == Success("")
  {
  }

  /** Only the exact spellings are categories; case variants are refused. */
  lemma CategoryExamples()
    ensures ValidateCategory(Some("Fiction")) == Success("Fiction")
    ensures ValidateCategory(Some("Non-Fiction")) == Success("Non-Fiction")
    ensures ValidateCategory(Some("fiction")) == Failure(InvalidCategory)
    ensures ValidateCategory(Some("Non-fiction")) == Failure(InvalidCategory)
    ensures ValidateCategory(Some("")) == Failure(InvalidCategory)
    ensures ValidateCategory(None) == Failure(InvalidCategory)
  {
  }

  /** A title in which one of the keywords occurs is accepted as it is. */
  lemma KeywordOccurrenceAccepted(title: string, j: int, i: int)
    requires 0 <= j < |CLICKBAIT_KEYWORDS| && OccursAt(CLICKBAIT_KEYWORDS[j], title, i)
    ensures ValidateTitle(Some(title)) == Success(title)
  {
    AnyContainedIffSomeKeyword(CLICKBAIT_KEYWORDS, title);
  }

  /**
   * A non-empty title in which none of the keywords' initials W, S, T, G
   * appears is refused by the keyword check.
   */
  lemma NoKeywordInitialRejected(title: string)
    requires title != ""
    requires 'W' !in title && 'S' !in title && 'T' !in title && 'G' !in title
    ensures ValidateTitle(Some(title)) == Failure(NotClickbait)
  {
    FirstCharAbsentNeverContained(title, "Won't Believe");
    FirstCharAbsentNeverContained(title, "Secret");
    FirstCharAbsentNeverContained(title, "Top");
    FirstCharAbsentNeverContained(title, "Guess");
    AnyContainedIffSomeKeyword(CLICKBAIT_KEYWORDS, title);
    ContainsIffHasSubstring(title, "Won't Believe");
    ContainsIffHasSubstring(title, "Secret");
    ContainsIffHasSubstring(title, "Top");
    ContainsIffHasSubstring(title, "Guess");
  }

  /** "Top" alone passes; lower-case keywords do not count; an empty title fails before the keyword check. */
  lemma TitleExamples()
    ensures ValidateTitle(Some("Top")) == Success("Top")
    ensures ValidateTitle(Some("You Won't Believe This")) == Success("You Won't Believe This")
    ensures ValidateTitle(Some("My Day")) == Failure(NotClickbait)
    ensures ValidateTitle(Some("top secret")) == Failure(NotClickbait)
    ensures ValidateTitle(Some("")) == Failure(MissingTitle)
    ensures ValidateTitle(None) == Failure(MissingTitle)
  {
    KeywordOccurrenceAccepted("Top", 2, 0);
    assert "You Won't Believe This"[4..17] == "Won't Believe";
    KeywordOccurrenceAccepted("You Won't Believe This", 0, 4);
    NoKeywordInitialRejected("My Day");
    NoKeywordInitialRejected("top secret");
  }

  /**
   * A post titled "Top 10 Secrets" with 300 characters of content, category
   * "Fiction" and summary "ok" is created; a post titled "My Day" is not.
   */
  lemma PostExamples()
    ensures MakePost(Some("Top 10 Secrets"), Some(seq(300, _ => 'a')), Some("Fiction"), Some("ok")).Success?
    ensures MakePost(Some("My Day"), Some(seq(300, _ => 'a')), Some("Fiction"), Some("ok"))
      == Failure(NotClickbait)
  {
    KeywordOccurrenceAccepted("Top 10 Secrets", 2, 0);
    NoKeywordInitialRejected("My Day");
  }
}
