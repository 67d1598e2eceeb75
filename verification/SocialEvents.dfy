/** Social events: the activation codes a user may sign up with (pkg/signup/socialevent.go). */
module SocialEvents {
  import opened Text
  import opened UserSignups

  datatype SocialEvent = SocialEvent(name: string, activationCount: int, maxAttendees: int,
                                     startTime: int, endTime: int,
                                     verificationRequired: bool, targetCluster: string)

  datatype EventLookup = NoEvent | EventReadError | EventRead(event: SocialEvent)

  /** The event behind a code, or why it cannot be used now. */
  function ValidatedEvent(lookup: EventLookup, now: int): Result<SocialEvent, Error> {
    match lookup
    case NoEvent => Err(EventNotFound)
    case EventReadError => Err(EventUnreadable)
    case EventRead(event) =>
      if event.activationCount >= event.maxAttendees then Err(EventFull)
      else if event.startTime > now then Err(EventNotStarted)
      else if event.endTime < now then Err(EventOver)
      else Ok(event)
  }

  /** The event can be used: it has room and is under way. */
  predicate Usable(lookup: EventLookup, now: int) {
    && lookup.EventRead?
    && lookup.event.activationCount < lookup.event.maxAttendees
    && lookup.event.startTime <= now <= lookup.event.endTime
  }

  function WithSocialEvent(w: World, event: SocialEvent, s: UserSignup): UserSignup {
    var approved := if event.verificationRequired then s.flags
                    else s.flags - w.clearedByApproval + {ApprovedManually};
    s.(flags := approved - {Deactivated},
       labels := s.labels[SocialEventName := event.name],
       targetCluster := if event.targetCluster != "" then event.targetCluster else s.targetCluster)
  }

  method UpdateUserSignupWithSocialEvent(w: World, event: SocialEvent, us: Resource)
    modifies us
    ensures us.Value() == WithSocialEvent(w, event, old(us.Value()))
  {
    if !event.verificationRequired {
      us.SetApprovedManually(w);
    }
    us.UnsetDeactivated();
    us.labels := us.labels[SocialEventName := event.name];
    if event.targetCluster != "" {
      us.targetCluster := event.targetCluster;
    }
  }

  /** A usable event is one with room, inside its time window; each way to be unusable has its own error, in
      the order of the checks. */
  lemma ValidatedExactly(lookup: EventLookup, now: int)
    ensures ValidatedEvent(lookup, now).Ok? <==> Usable(lookup, now)
    ensures var v := ValidatedEvent(lookup, now);
            && (v == Err(EventNotFound) <==> lookup.NoEvent?)
            && (v == Err(EventUnreadable) <==> lookup.EventReadError?)
            && (lookup.EventRead? ==>
                  var full := lookup.event.activationCount >= lookup.event.maxAttendees;
                  && (v == Err(EventFull) <==> full)
                  && (v == Err(EventNotStarted) <==> !full && now < lookup.event.startTime)
                  && (v == Err(EventOver) <==>
                        !full && lookup.event.startTime <= now && lookup.event.endTime < now))
    ensures Usable(lookup, now) ==> ValidatedEvent(lookup, now).value == lookup.event
  {
  }

  /** After an event the user is not deactivated and carries its name; unless the event asks for
      verification the user is approved and need not verify. Verification is never asked for anew. */
  lemma SocialEventEffect(w: World, event: SocialEvent, s: UserSignup)
    requires w.Lawful()
    ensures var t := WithSocialEvent(w, event, s);
            && Deactivated !in t.flags && SocialEventName in t.labels && t.labels[SocialEventName] == event.name
            && (!event.verificationRequired ==>
                  ApprovedManually in t.flags && VerificationRequired !in t.flags && Deactivating !in t.flags)
            && (VerificationRequired in t.flags <==> VerificationRequired in s.flags && event.verificationRequired)
            && (ApprovedManually in t.flags <==> ApprovedManually in s.flags || !event.verificationRequired)
            && (forall flag :: flag != ApprovedManually && flag != Deactivated ==>
                  (flag in t.flags <==>
                     flag in s.flags && (event.verificationRequired || flag !in w.clearedByApproval)))
            && t.targetCluster == (if event.targetCluster == "" then s.targetCluster else event.targetCluster)
            && t.annotations == s.annotations && t.claims == s.claims && t.status == s.status
            && (forall key :: key != SocialEventName ==> t.SameLabel(s, key))
  {
  }
}
