/** The UserSignup resource as the services read and write it. */
module UserSignups {
  import opened Text

  /** The annotations the services know by name; the rest belongs to others. */
  datatype AnnotationKey =
    | InitTimestamp | SendCounter | Attempts | Code | Expiry
    | CaptchaScore | CaptchaAssessment
    | ActivationCounter | LastTargetCluster
    | RequestReceivedTime | VerifierResult | VerifierReasons | SkipAutoCreateSpace
    | CarrierRisk | NumberBlocked | LookupDetails
    | OtherAnnotation(key: string)

  datatype LabelKey = EmailHash | PhoneHash | StateLabel | SocialEventName | OtherLabel(key: string)

  datatype Flag = VerificationRequired | ApprovedManually | Deactivating | Deactivated | Banned | Rejected

  datatype Claims = Claims(
    sub: string, userID: string, accountID: string, accountNumber: string, originalSub: string,
    email: string, preferredUsername: string, givenName: string, familyName: string, company: string)

  /** `deactivated`: the Complete condition is true with the reason "deactivated". */
  datatype Status = Status(deactivated: bool)

  datatype UserSignup = UserSignup(
    labels: map<LabelKey, string>,
    annotations: map<AnnotationKey, string>,
    flags: set<Flag>,
    targetCluster: string,
    claims: Claims,
    status: Status)
  {
    function Label(key: LabelKey): string {
      if key in labels then labels[key] else ""
    }

    function Annotation(key: AnnotationKey): string {
      if key in annotations then annotations[key] else ""
    }

    /** The same value under the key, or missing in both. */
    predicate SameAnnotation(other: UserSignup, key: AnnotationKey) {
      && (key in annotations <==> key in other.annotations)
      && (key in annotations ==> annotations[key] == other.annotations[key])
    }

    predicate SameLabel(other: UserSignup, key: LabelKey) {
      && (key in labels <==> key in other.labels)
      && (key in labels ==> labels[key] == other.labels[key])
    }
  }

  function At(a: map<AnnotationKey, string>, key: AnnotationKey): Option<string> {
    if key in a then Some(a[key]) else None
  }

  datatype BannedUser = BannedUser(email: string, emailHash: string, phoneHash: string)

  const MINUTE: int := 60_000
  const DAY: int := 24 * 60 * MINUTE

  /** The library code around the services. Times are milliseconds, which is what the timestamp layout
      keeps. `clearedByApproval` is the set of flags that manual approval removes. */
  datatype World = World(
    hash: string -> string,
    formatTime: int -> string,
    parseTime: string -> Option<int>,
    encodeUsername: string -> string,
    countryOf: string -> string,
    scoreTooLow: string -> bool,
    clearedByApproval: set<Flag>)
  {
    /** Timestamps read back, an empty text is no timestamp, hashes are 32 hexadecimal digits, and
        manual approval ends verification and deactivation. */
    ghost predicate Lawful() {
      && (forall t :: parseTime(formatTime(t)) == Some(t))
      && parseTime("") == None
      && (forall s :: IsHash(hash(s)))
      && {VerificationRequired, Deactivating, Deactivated} <= clearedByApproval
      && ApprovedManually !in clearedByApproval
    }
  }

  /** The digit count of a number, with its sign in front: every time can be written and read back. */
  function Tally(t: int): string {
    [if t < 0 then '-' else '+'] + seq(if t < 0 then -t else t, _ => '1')
  }

  function FromTally(s: string): Option<int> {
    if s == "" then None else Some(if s[0] == '-' then 1 - |s| else |s| - 1)
  }

  /** The laws can be met. */
  lemma LawfulWorldExists() returns (w: World)
    ensures w.Lawful()
  {
    w := World(_ => seq(32, _ => '0'), Tally, FromTally, s => s, _ => "", _ => false,
               {VerificationRequired, Deactivating, Deactivated});
    forall t ensures w.parseTime(w.formatTime(t)) == Some(t) {
      assert w.formatTime(t) == Tally(t);
    }
  }

  predicate IsHexDigit(c: char) {
    '0' <= c <= '9' || 'a' <= c <= 'f' || 'A' <= c <= 'F'
  }

  predicate IsHash(s: string) {
    |s| == 32 && forall k :: 0 <= k < |s| ==> IsHexDigit(s[k])
  }

  datatype LookupMode = LookupDisabled | LookupLogOnly | LookupEnabled

  datatype Config = Config(
    dailyLimit: int,
    attemptsAllowed: int,
    codeExpiresInMin: int,
    allowLowScoreReactivation: bool,
    lookupMode: LookupMode,
    excludedCountries: seq<string>)
  {
    /** The limits are 32-bit settings. */
    predicate Valid() {
      && -0x8000_0000 <= dailyLimit < 0x8000_0000
      && -0x8000_0000 <= attemptsAllowed < 0x8000_0000
    }
  }

  datatype Error =
    | SignupNotFound | SignupUnreadable | UpdateFailed
    | VerificationNotRequired | VerificationRejected
    | PhoneInUse | PhoneCheckFailed
    | DailyLimitExceeded | CodeGenerationFailed | SendingFailed
    | ManualApprovalRequired
    | TooManyAttempts | AttemptsUnreadable | ExpiryUnreadable | CodeExpired | CodeInvalid
    | EventNotFound | EventUnreadable | EventFull | EventNotStarted | EventOver
    | AdminMayNotSignUp | UserBanned | BannedListUnreadable | SignupRejected | SignupConflict | CreateFailed

  /** The host cluster's store. */
  class Host {
    var signups: map<string, UserSignup>
    var banned: seq<BannedUser>

    constructor (signups: map<string, UserSignup>, banned: seq<BannedUser>)
      ensures this.signups == signups && this.banned == banned
    {
      this.signups, this.banned := signups, banned;
    }
  }

  function ObjectAt(signups: map<string, UserSignup>, name: string): Option<UserSignup> {
    if name in signups then Some(signups[name]) else None
  }

  function WithObject(signups: map<string, UserSignup>, name: string, s: Option<UserSignup>): map<string, UserSignup> {
    if s.None? then signups else signups[name := s.value]
  }

  /** A copy of a UserSignup in memory, which the services change field by field. */
  class Resource {
    var labels: map<LabelKey, string>
    var annotations: map<AnnotationKey, string>
    var flags: set<Flag>
    var targetCluster: string
    var claims: Claims
    var status: Status

    function Value(): UserSignup
      reads this
    {
      UserSignup(labels, annotations, flags, targetCluster, claims, status)
    }

    constructor (s: UserSignup)
      ensures Value() == s
    {
      labels, annotations, flags := s.labels, s.annotations, s.flags;
      targetCluster, claims, status := s.targetCluster, s.claims, s.status;
    }

    method SetVerificationRequired(required: bool)
      modifies this`flags
      ensures flags == if required then old(flags) + {VerificationRequired} else old(flags) - {VerificationRequired}
    {
      flags := if required then flags + {VerificationRequired} else flags - {VerificationRequired};
    }

    method SetRejected()
      modifies this`flags
      ensures flags == old(flags) + {Rejected}
    {
      flags := flags + {Rejected};
    }

    method SetApprovedManually(w: World)
      modifies this`flags
      ensures flags == old(flags) - w.clearedByApproval + {ApprovedManually}
    {
      flags := flags - w.clearedByApproval + {ApprovedManually};
    }

    method UnsetDeactivated()
      modifies this`flags
      ensures flags == old(flags) - {Deactivated}
    {
      flags := flags - {Deactivated};
    }
  }
}
