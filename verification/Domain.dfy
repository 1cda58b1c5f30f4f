/** Domain types (crates/core-domain/src/lib.rs). */
module Domain {
  import opened Wrappers

  type u8 = x: int | 0 <= x < 0x100
  type u16 = x: int | 0 <= x < 0x1_0000

  const PAGE_COUNT: u8 := 4
  const KEY_ROWS: u8 := 3
  const KEY_COLUMNS: u8 := 4
  const KEYS_PER_PAGE: u8 := KEY_ROWS * KEY_COLUMNS
  const ENCODERS_PER_PAGE: u8 := 2

  datatype ProfileId = ProfileId(uuid: nat)

  datatype DomainError =
    | EmptyProfileName
    | InvalidProfileId(text: string)
    | InvalidPageIndex(value: u8)
    | InvalidKeyIndex(value: u8)
    | InvalidEncoderIndex(value: u8)
    | InvalidUrl(text: string)
    | UnsupportedUrlScheme(scheme: string)
    | UrlCredentialsNotAllowed
    | ActiveProfileInvariant(activeCount: nat)

  /** What the library's URL parser finds in a text that it accepts. */
  datatype Url = Url(scheme: string, username: string, password: Option<string>)

  /** Library code the program calls: UUID text, URL parsing, white space. */
  datatype Library = Library(
    parseUuid: string -> Option<ProfileId>,
    printUuid: ProfileId -> string,
    parseUrl: string -> Option<Url>,
    isWhitespace: char -> bool)
  {
    /** Parsing a printed UUID gives the UUID back, and a letter is not white space. */
    ghost predicate Lawful() {
      && (forall id :: parseUuid(printUuid(id)) == Some(id))
      && (forall c | 'A' <= c <= 'Z' || 'a' <= c <= 'z' :: !isWhitespace(c))
    }

    /** `text.trim().is_empty()` */
    predicate IsBlank(text: string) {
      forall i | 0 <= i < |text| :: isWhitespace(text[i])
    }

    function ParseProfileId(text: string): Result<ProfileId, DomainError> {
      match parseUuid(text)
      case Some(id) => Success(id)
      case None => Failure(InvalidProfileId(text))
    }

    /** Only web addresses without credentials. */
    function ParseUrl(text: string): Result<SafeUrl, DomainError> {
      match parseUrl(text)
      case None => Failure(InvalidUrl(text))
      case Some(url) =>
        if url.username != "" || url.password.Some? then Failure(UrlCredentialsNotAllowed)
        else if url.scheme == "http" || url.scheme == "https" then Success(SafeUrl(text))
        else Failure(UnsupportedUrlScheme(url.scheme))
    }

    function MakeProfile(id: ProfileId, name: string, isActive: bool): Result<Profile, DomainError> {
      if IsBlank(name) then Failure(EmptyProfileName) else Success(Profile(id, name, isActive))
    }

    function Rename(profile: Profile, name: string): Result<Profile, DomainError> {
      if IsBlank(name) then Failure(EmptyProfileName) else Success(profile.(name := name))
    }

    /** Only `ParseUrl` makes a `SafeUrl`. */
    predicate IsSafe(action: Action) {
      ParseUrl(action.url.text).Success?
    }

    predicate AllSafe(actions: seq<Action>) {
      forall action | action in actions :: IsSafe(action)
    }
  }

  datatype SafeUrl = SafeUrl(text: string)

  datatype Action = OpenUrl(url: SafeUrl)

  datatype EncoderOperation = Left | Right | Press

  datatype Control =
    | Key(page: u8, key: u8)
    | Encoder(page: u8, encoder: u8, operation: EncoderOperation)
  {
    predicate InLayout() {
      page < PAGE_COUNT && if Key? then key < KEYS_PER_PAGE else encoder < ENCODERS_PER_PAGE
    }
  }

  /** Only the checked constructors below make a `ControlId`. */
  type ControlId = c: Control | c.InLayout() witness Key(0, 0)

  function MakeKey(page: u8, key: u8): Result<ControlId, DomainError> {
    if page >= PAGE_COUNT then Failure(InvalidPageIndex(page))
    else if key >= KEYS_PER_PAGE then Failure(InvalidKeyIndex(key))
    else Success(Key(page, key))
  }

  function MakeEncoder(page: u8, encoder: u8, operation: EncoderOperation): Result<ControlId, DomainError> {
    if page >= PAGE_COUNT then Failure(InvalidPageIndex(page))
    else if encoder >= ENCODERS_PER_PAGE then Failure(InvalidEncoderIndex(encoder))
    else Success(Encoder(page, encoder, operation))
  }

  datatype Profile = Profile(id: ProfileId, name: string, isActive: bool)

  datatype Assignment = Assignment(profileId: ProfileId, control: ControlId, actions: seq<Action>)

  function ActiveCount(profiles: seq<Profile>): nat {
    if profiles == [] then 0
    else ActiveCount(profiles[..|profiles| - 1]) + (if profiles[|profiles| - 1].isActive then 1 else 0)
  }

  function EnsureExactlyOneActive(profiles: seq<Profile>): Result<(), DomainError> {
    if ActiveCount(profiles) == 1 then Success(()) else Failure(ActiveProfileInvariant(ActiveCount(profiles)))
  }
}
