/** A speaker's standing, told from the MAINTAINERS sections and the touched files alone. */
module AuthorityStandings {
  import opened Options
  import opened Authority

  ghost predicate IsCatchAll(index: Index, name: string) {
    exists s :: s in index && s.name == name && s.catchAll
  }

  /** Only catch-alls match the file. */
  ghost predicate Orphan(index: Index, matching: Match, file: string) {
    forall name :: name in matching(file) ==> IsCatchAll(index, name)
  }

  /** A section answers for the files it matches; a catch-all for those nobody else does. */
  ghost predicate AnswersFor(index: Index, matching: Match, files: seq<string>, name: string) {
    exists f :: f in files
      && if IsCatchAll(index, name) then Orphan(index, matching, f) else name in matching(f)
  }

  ghost predicate IsMaintainer(index: Index, canonical: Canonical, matching: Match, files: seq<string>, email: string) {
    exists s, raw :: s in index && raw in s.maintainers && canonical(raw) == Some(email)
                     && AnswersFor(index, matching, files, s.name)
  }

  ghost predicate IsReviewer(index: Index, canonical: Canonical, matching: Match, files: seq<string>, email: string) {
    exists s, raw :: s in index && raw in s.reviewers && canonical(raw) == Some(email)
                     && AnswersFor(index, matching, files, s.name)
  }

  /** Listed anywhere. */
  ghost predicate IsKnown(index: Index, canonical: Canonical, email: string) {
    exists s, raw :: s in index && (raw in s.maintainers || raw in s.reviewers) && canonical(raw) == Some(email)
  }

  lemma ResponsibleAnswer(index: Index, matching: Match, files: seq<string>, touched: set<string>, name: string)
    requires IsResponsible(matching, CatchAlls(index), files, touched)
    ensures name in touched <==> AnswersFor(index, matching, files, name)
  {
    forall f ensures Specific(matching, CatchAlls(index), f) == {} <==> Orphan(index, matching, f) {
      SpecificOrOrphan(index, matching, f);
    }
  }

  lemma SpecificOrOrphan(index: Index, matching: Match, file: string)
    ensures Specific(matching, CatchAlls(index), file) == {} <==> Orphan(index, matching, file)
  {
    forall name ensures name in CatchAlls(index) <==> IsCatchAll(index, name) {
    }
    if Specific(matching, CatchAlls(index), file) == {} {
      forall name | name in matching(file) ensures IsCatchAll(index, name) {
        assert name !in CatchAlls(index) ==> name in Specific(matching, CatchAlls(index), file);
      }
    }
  }

  /** A speaker's role: maintainer of what is touched, else reviewer of it, else listed
      somewhere, else nobody. */
  lemma RoleIs(index: Index, canonical: Canonical, matching: Match, files: seq<string>, view: View,
          touched: set<string>, email: string)
    requires Inverts(view.m, index, canonical, false) && Inverts(view.r, index, canonical, true)
    requires IsResponsible(matching, CatchAlls(index), files, touched)
    ensures Classify(view, email, touched).0 ==
      if IsMaintainer(index, canonical, matching, files, email) then SubsystemMaintainer
      else if IsReviewer(index, canonical, matching, files, email) then DesignatedReviewer
      else if IsKnown(index, canonical, email) then OtherSubsystemMaintainer
      else NoRole
  {
    hide Classify, Inverts, IsResponsible, AnswersFor;
    ViewAgreesWithScan(view, index, canonical, email, touched);
    forall s | s in index ensures s.name in touched <==> AnswersFor(index, matching, files, s.name) {
      ResponsibleAnswer(index, matching, files, touched, s.name);
    }
  }

  /** How far a speaker is trusted: a bot by the whitelist; anyone else highly as maintainer or
      reviewer of what is touched, moderately when listed elsewhere, and otherwise little. An
      author's claim that code cannot decide counts only as a maintainer's or reviewer's. */
  lemma StandingIs(index: Index, canonical: Canonical, matching: Match, files: seq<string>, view: View,
          touched: set<string>, email: string, speaker: SpeakerRole, trustedBot: bool)
    requires Inverts(view.m, index, canonical, false) && Inverts(view.r, index, canonical, true)
    requires IsResponsible(matching, CatchAlls(index), files, touched)
    ensures var s := StandingOf(view, email, touched, speaker, trustedBot);
      var inCharge := IsMaintainer(index, canonical, matching, files, email)
                      || IsReviewer(index, canonical, matching, files, email);
      (speaker == AutomatedBot ==> s.tier == s.claimTrust == (if trustedBot then High else Low))
      && (speaker != AutomatedBot ==>
            s.tier == if inCharge then High else if IsKnown(index, canonical, email) then Moderate else Low)
      && (speaker == PatchAuthor ==> s.claimTrust == if inCharge then High else Low)
      && (speaker == Reviewer ==> s.claimTrust == s.tier)
  {
    hide Classify, Inverts, IsResponsible, IsMaintainer, IsReviewer, IsKnown;
    RoleIs(index, canonical, matching, files, view, touched, email);
  }

  /** Somebody with a repository association is a maintainer of the repository, unless already
      maintainer or reviewer of what is touched; without one nothing changes. */
  lemma AssociationMakesMaintainer(s: Standing, speaker: SpeakerRole, repoMaintainer: bool)
    ensures var t := WithForgeAssociation(s, speaker, repoMaintainer);
      (repoMaintainer && speaker != AutomatedBot ==>
         t.role == (if s.role == DesignatedReviewer then DesignatedReviewer else SubsystemMaintainer)
         && t.tier == t.claimTrust == High)
      && (!repoMaintainer || speaker == AutomatedBot ==> t == s)
  {
  }
}
