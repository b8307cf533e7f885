/**
 What an account may do at a path, and how a share of the same place compares: the two decisions are made by
 different code, and a share must not hand out more.
 */
module VolumeAccess {
  import opened Common
  import opened Text
  import opened RelativePaths
  import opened ShareAccess

  /** `rows` holds the rows of the assigned volumes in table order. */
  datatype Site = Site(w: World, userVolumes: bool, rows: seq<AssignedVolume>, personalEnabled: bool)

  datatype Refusal = GuestsOutside | SignInRequired | NotAssigned | Personal | IsHidden | PathRefused | ByShare(denial: Denial)

  datatype Access = NoAccess(reason: Refusal) | Access(canWrite: bool)

  predicate IsAdmin(user: User) { "admin" in user.roles }

  // ----- Where a path leads

  datatype Lead = ToVolume(rel: string) | ToPersonal(rel: string) | ToShare(token: string, inner: string)

  const RESERVED := {"personal", "share", "volumes"}

  /** The first segment says which space a normalised path is in, unless there is a folder of that name to be meant. */
  function LeadOf(personalEnabled: bool, normalized: string): Lead {
    var first, rest := Split(normalized, '/')[0], Split(normalized, '/')[1..];
    if first == "personal" && personalEnabled then ToPersonal(Joined(rest))
    else if first == "volumes" && rest != [] then ToVolume(Joined(rest))
    else if first == "share" && rest != [] && rest[0] != "" then ToShare(rest[0], Joined(rest[1..]))
    else ToVolume(normalized)
  }

  function ParsePathSpace(personalEnabled: bool, raw: string): Option<Lead> {
    match NormalizeRelative(raw)
    case None => None
    case Some(normalized) => Some(LeadOf(personalEnabled, normalized))
  }

  /** The first assigned volume of the account whose label is the first segment. */
  function VolumeNamed(rows: seq<AssignedVolume>, userId: string, name: string): Option<AssignedVolume> {
    if rows == [] then None
    else if rows[0].userId == userId && rows[0].title == name then Some(rows[0])
    else VolumeNamed(rows[1..], userId, name)
  }

  function VolumeForPath(site: Site, userId: string, rel: string): Option<AssignedVolume> {
    if Parts(rel) == [] then None else VolumeNamed(site.rows, userId, Parts(rel)[0])
  }

  // ----- The decision

  function ByRules(access: Rules, rel: string, isAdmin: bool, readOnly: bool): Access {
    match Permitted(access, rel, isAdmin)
    case None => NoAccess(PathRefused)
    case Some(p) => if p == Hidden then NoAccess(IsHidden) else Access(!readOnly && p != ReadOnly)
  }

  function InAssigned(site: Site, user: User, rel: string): Access {
    match VolumeForPath(site, user.id, rel)
    case None => NoAccess(NotAssigned)
    case Some(v) =>
      if StepsIntoPersonal(site.w, v.path, Joined(Parts(rel)[1..])) then NoAccess(Personal)
      else ByRules(site.w.access, rel, false, v.readOnly)
  }

  /** Nobody without an account goes anywhere but into shares. */
  function NotSignedIn(ctx: Context): Option<Refusal> {
    if ctx.guestOf.Some? && ctx.user.None? then Some(GuestsOutside)
    else if ctx.user.None? || ctx.user.value.id == "" then Some(SignInRequired)
    else None
  }

  function DecideVolume(site: Site, ctx: Context, rel: string): Access {
    if NotSignedIn(ctx).Some? then NoAccess(NotSignedIn(ctx).value)
    else if site.userVolumes && !IsAdmin(ctx.user.value) then InAssigned(site, ctx.user.value, rel)
    else if StepsIntoPersonal(site.w, site.w.volumeRoot, rel) then NoAccess(Personal)
    else ByRules(site.w.access, rel, IsAdmin(ctx.user.value), false)
  }

  function DecidePersonal(ctx: Context): Access {
    if NotSignedIn(ctx).Some? then NoAccess(NotSignedIn(ctx).value) else Access(true)
  }

  function DecideShare(site: Site, q: Question): Access {
    match Decide(site.w, q)
    case Denied(denial) => NoAccess(ByShare(denial))
    case Allowed(grant) => Access(grant.canWrite)
  }

  /** What a caller may do at a path, as it is asked for. */
  function GetAccessInfo(site: Site, ctx: Context, raw: string): Access {
    match ParsePathSpace(site.personalEnabled, raw)
    case None => NoAccess(PathRefused)
    case Some(ToVolume(rel)) => DecideVolume(site, ctx, rel)
    case Some(ToPersonal(rel)) => DecidePersonal(ctx)
    case Some(ToShare(token, inner)) => DecideShare(site, Question(ctx, token, inner))
  }

  /** What the rules leave of a place: whether it may be opened, and written. */
  ghost predicate MayOpen(site: Site, root: string, at: string, rel: string, isAdmin: bool) {
    && !StepsIntoPersonal(site.w, root, at)
    && (Permitted(site.w.access, rel, isAdmin) == Some(ReadWrite) || Permitted(site.w.access, rel, isAdmin) == Some(ReadOnly))
  }

  /**
   Who may open a place in the volume, and who may write there: nobody without an account, an ordinary account
   of a site with assigned volumes only where one of its own is found, everybody else wherever the rules let them.
   */
  lemma VolumeOpensExactly(site: Site, ctx: Context, rel: string)
    ensures var access := DecideVolume(site, ctx, rel);
            if !SignedIn(ctx) then access == NoAccess(if ctx.user.None? && ctx.guestOf.Some? then GuestsOutside else SignInRequired)
            else if site.userVolumes && "admin" !in ctx.user.value.roles then
              match VolumeForPath(site, ctx.user.value.id, rel)
              case None => access == NoAccess(NotAssigned)
              case Some(v) =>
                && (access.Access? <==> MayOpen(site, v.path, Joined(Parts(rel)[1..]), rel, false))
                && (access.Access? ==> (access.canWrite <==> !v.readOnly && Permitted(site.w.access, rel, false) == Some(ReadWrite)))
            else
              var isAdmin := "admin" in ctx.user.value.roles;
              && (access.Access? <==> MayOpen(site, site.w.volumeRoot, rel, rel, isAdmin))
              && (access.Access? ==> (access.canWrite <==> Permitted(site.w.access, rel, isAdmin) == Some(ReadWrite)))
  {
    hide Permitted, StepsIntoPersonal, VolumeForPath, Parts;
  }

  /** A path asked for is answered by the space it leads to: the volume, one's own folder, or the share, to which anybody may go. */
  lemma SpacesAnswer(site: Site, ctx: Context, raw: string)
    ensures var access := GetAccessInfo(site, ctx, raw);
            match ParsePathSpace(site.personalEnabled, raw)
            case None => access == NoAccess(PathRefused)
            case Some(ToVolume(rel)) => access == DecideVolume(site, ctx, rel)
            case Some(ToPersonal(_)) =>
              && (access.Access? <==> SignedIn(ctx)) && (access.Access? ==> access.canWrite)
            case Some(ToShare(token, inner)) =>
              var info := Decide(site.w, Question(ctx, token, inner));
              && (access.Access? <==> info.Allowed?) && (access.Access? ==> access.canWrite == info.grant.canWrite)
  {
    hide Decide, DecideVolume, ParsePathSpace;
  }

  /** A path whose first name is none of the three words is one in the volume, and so is "personal" where there are no personal folders. */
  lemma OtherNamesLead(personalEnabled: bool, path: string)
    requires Tidy(path) && Parts(path) != []
    requires Parts(path)[0] !in RESERVED || (Parts(path)[0] == "personal" && !personalEnabled)
    ensures LeadOf(personalEnabled, path) == ToVolume(path)
  {
    if path == "" { NothingHere(); }
    BehindSegments(path, 1);
    hide Parts, Tidy, Split;
  }

  /** By itself a word names a folder of the volume, "share" also with a slash behind it. */
  lemma WordsAlone(personalEnabled: bool, word: string, path: string)
    requires word == "volumes" || word == "share"
    requires path == word || (word == "share" && path == word + "/")
    ensures LeadOf(personalEnabled, path) == ToVolume(path)
  {
    if path == word {
      OnlyOddLabels(word);
      SplitWithout(word, '/');
      assert [word][1..] == [];
    } else {
      ShareAndNothing(word, path);
      assert [word, ""][1..] == [""];
    }
    hide Split;
  }

  lemma ShareAndNothing(word: string, path: string)
    requires path == word + "/" && '/' !in word
    ensures Split(path, '/') == [word, ""]
  {
    assert path == word + ['/'] + "";
    SplitAt(word, "", '/');
  }

  /** An ordinary signed-in account. */
  ghost predicate Ordinary(ctx: Context) { ctx.user.Some? && ctx.user.value.id != "" && !IsAdmin(ctx.user.value) }

  /** Whether the share can be opened by this caller at all, before its place is considered. */
  ghost predicate Opens(w: World, q: Question) {
    && q.token != "" && q.token in w.shares && !Expired(w.shares[q.token], w.now)
    && CallerMayNotOpen(w, w.shares[q.token], q.ctx).None?
  }

  /** Both are answered or neither, and the share writes where it was made to and the account does. */
  ghost predicate Alike(share: Share, info: Info, access: Access) {
    && (info.Allowed? <==> access.Access?)
    && (info.Allowed? ==> (info.grant.canWrite <==> share.readWrite && access.canWrite))
  }

  // ----- A share of the volume against an ordinary account

  /** Once a share may be opened, its place decides. */
  lemma PlaceDecides(w: World, q: Question)
    requires Opens(w, q)
    ensures var share := w.shares[q.token];
            Decide(w, q) ==
            match SourceLimits(w, share, q.inner)
            case Refused(reason) => Denied(reason)
            case Limit(readOnly) => Allowed(GrantFor(share, q.ctx.user, readOnly))
  {
    hide SourceLimits, CallerMayNotOpen, Expired;
  }

  /** What a share and an account make of the same answer of the rules. */
  lemma SameRules(access: Rules, path: string, readOnly: bool, share: Share, user: Option<User>)
    ensures match LimitOf(Permitted(access, path, false), readOnly)
            case Refused(_) => ByRules(access, path, false, readOnly).NoAccess?
            case Limit(capped) => Alike(share, Allowed(GrantFor(share, user, capped)), ByRules(access, path, false, readOnly))
  {
    hide Permitted;
  }

  /**
   A share of a place in the volume, once it may be opened, is answered exactly where any ordinary account
   of the same site would be, and writes exactly where that account does and the share was made to. When the
   place is a tidy path, "volumes/" before it is how the account goes there.
   */
  lemma ShareOfVolumeIsAnOrdinaryAccount(site: Site, q: Question, ctx: Context)
    requires Opens(site.w, q) && site.w.shares[q.token].space == Volume
    requires Ordinary(ctx) && !site.userVolumes
    ensures var share := site.w.shares[q.token];
            match Under(share, share.sourcePath, q.inner)
            case None => Decide(site.w, q).Denied?
            case Some(at) =>
              && Alike(share, Decide(site.w, q), DecideVolume(site, ctx, at))
              && (Tidy(at) ==> Alike(share, Decide(site.w, q), GetAccessInfo(site, ctx, "volumes/" + at)))
  {
    var share := site.w.shares[q.token];
    var under := Under(share, share.sourcePath, q.inner);
    PlaceDecides(site.w, q);
    hide Permitted, Tidy, ParsePathSpace, Under, Opens, Decide, DecideVolume, GetAccessInfo, Alike;
    if under.Some? {
      VolumeShareAlike(site, q, ctx, under.value);
      if Tidy(under.value) { GoesThroughVolumes(site, ctx, under.value); }
    }
  }

  lemma VolumeShareAlike(site: Site, q: Question, ctx: Context, at: string)
    requires Opens(site.w, q) && site.w.shares[q.token].space == Volume
    requires Ordinary(ctx) && !site.userVolumes
    requires var share := site.w.shares[q.token]; Under(share, share.sourcePath, q.inner) == Some(at)
    ensures Alike(site.w.shares[q.token], Decide(site.w, q), DecideVolume(site, ctx, at))
  {
    PlaceDecides(site.w, q);
    SameRules(site.w.access, at, false, site.w.shares[q.token], q.ctx.user);
    hide Permitted, StepsIntoPersonal, Under, Opens, LimitOf, ByRules, GrantFor, Decide;
  }

  lemma GoesThroughVolumes(site: Site, ctx: Context, at: string)
    requires Tidy(at)
    ensures GetAccessInfo(site, ctx, "volumes/" + at) == DecideVolume(site, ctx, at)
  {
    WordsLead(site.personalEnabled, "volumes", "token", at);
    hide ParsePathSpace, Tidy, DecideVolume, DecideShare;
    assert "volumes" + "/" + at == "volumes/" + at;
  }

  lemma SplitBelow(name: string, at: string)
    requires NamesSomething(name)
    ensures Split(name + "/" + at, '/')[0] == name && Split(name + "/" + at, '/')[1..] == Split(at, '/')
    ensures Joined(Split(at, '/')) == at
  {
    assert name + "/" + at == name + ['/'] + at;
    SplitAt(name, at, '/');
    JoinSplit(at, '/');
    hide Split;
    assert ([name] + Split(at, '/'))[1..] == Split(at, '/');
  }

  /** Each of the three words leads into the space it names, with what follows it. */
  lemma WordsLead(personalEnabled: bool, word: string, token: string, at: string)
    requires word in RESERVED && Tidy(at) && NamesSomething(token)
    ensures word == "volumes" ==> ParsePathSpace(personalEnabled, word + "/" + at) == Some(ToVolume(at))
    ensures word == "personal" && personalEnabled ==> ParsePathSpace(personalEnabled, word + "/" + at) == Some(ToPersonal(at))
    ensures word == "share" ==> ParsePathSpace(personalEnabled, word + "/" + (token + "/" + at)) == Some(ToShare(token, at))
  {
    OnlyOddLabels(word);
    TidyBelow(token, at);
    TidyBelow(word, at);
    TidyBelow(word, token + "/" + at);
    TidyIsFixed(word + "/" + at);
    TidyIsFixed(word + "/" + (token + "/" + at));
    SplitBelow(word, at);
    SplitBelow(word, token + "/" + at);
    SplitBelow(token, at);
    hide NormalizeRelative, Tidy, Parts, Split, Joined;
  }

  /** A tidy path stays one below a folder, which is its first name then. */
  lemma TidyBelow(name: string, at: string)
    requires NamesSomething(name) && Tidy(at)
    ensures Tidy(name + "/" + at) && Parts(name + "/" + at) == [name] + Parts(at)
    ensures Tidy(name) && Parts(name) == [name]
  {
    var names := [name] + Parts(at);
    assert AllName([name]) && AllName(names);
    assert name + "" == name && Joined([name]) == name;
    TidyOfNames([name], "");
    PartsOfBoth(name, at);
    if at == "" {
      NothingHere();
      TidyOfNames([name], "/");
      assert name + "/" + "" == name + "/" && [name] + [] == [name];
    } else {
      SegmentsOfTidy(at);
      assert names[1..] == Parts(at);
      assert Joined(names) == name + ['/'] + Joined(Parts(at));
      assert name + ['/'] + Joined(Parts(at)) == name + "/" + Joined(Parts(at));
      assert name + "/" + (Joined(Parts(at)) + "/") == name + "/" + Joined(Parts(at)) + "/";
    }
  }

  // ----- A share of an assigned volume against its owner

  /**
   The volumes of the table are the ones ids lead to; their labels are not empty and none of the words kept
   for spaces, and an account has no two of one label.
   */
  ghost predicate Consistent(site: Site) {
    && (forall id :: id in site.w.volumes ==> site.w.volumes[id] in site.rows)
    && (forall v :: v in site.rows ==> v.title != "" && v.title !in RESERVED)
    && (forall v, v' :: v in site.rows && v' in site.rows && v.userId == v'.userId && v.title == v'.title ==> v == v')
  }

  lemma {:induction false} FoundByLabel(rows: seq<AssignedVolume>, v: AssignedVolume)
    requires v in rows
    requires forall r :: r in rows && r.userId == v.userId && r.title == v.title ==> r == v
    ensures VolumeNamed(rows, v.userId, v.title) == Some(v)
  {
    if rows[0] != v {
      assert rows == [rows[0]] + rows[1..];
      FoundByLabel(rows[1..], v);
    }
  }

  /** A share that may be opened, of a volume its owner, an ordinary account, is assigned; its paths are tidy. */
  ghost predicate SharedByItsOwner(site: Site, q: Question, owner: Context) {
    && Opens(site.w, q) && site.w.shares[q.token].space == UserVolume && site.userVolumes && Consistent(site)
    && var share := site.w.shares[q.token];
       && Ordinary(owner) && owner.user.value.id == share.ownerId
       && share.volumeId != "" && share.volumeId in site.w.volumes && site.w.volumes[share.volumeId].userId == share.ownerId
       && Tidy(share.innerRest) && Tidy(q.inner)
  }

  ghost function SharedVolume(site: Site, q: Question, owner: Context): AssignedVolume
    requires SharedByItsOwner(site, q, owner)
  {
    site.w.volumes[site.w.shares[q.token].volumeId]
  }

  /** Where in the volume the question leads. */
  ghost function SharedPlace(share: Share, inner: string): (at: string)
    requires Tidy(share.innerRest) && Tidy(inner)
    ensures Tidy(at) && Under(share, share.innerRest, inner) == Some(at)
  {
    if share.isDirectory && inner != "" then CombinedTidy(share.innerRest, inner); CombineRelative(share.innerRest, inner).value
    else share.innerRest
  }

  /** The path under which the owner goes to the place that is shared. */
  ghost function OwnersPath(site: Site, q: Question, owner: Context): string
    requires SharedByItsOwner(site, q, owner)
  {
    LogicalPath(SharedVolume(site, q, owner), SharedPlace(site.w.shares[q.token], q.inner))
  }

  /** Below a label that names something, the first segment is the label and the others are the path in the volume. */
  lemma PartsOfLogicalPath(v: AssignedVolume, at: string)
    requires NamesSomething(v.title) && Tidy(at)
    ensures Tidy(LogicalPath(v, at)) && Parts(LogicalPath(v, at)) == [v.title] + Parts(at)
    ensures Split(LogicalPath(v, at), '/')[0] == v.title
    ensures var inner := Joined(Parts(LogicalPath(v, at))[1..]); Tidy(inner) && Parts(inner) == Parts(at)
  {
    TidyBelow(v.title, at);
    if at == "" { NothingHere(); }
    BehindSegments(LogicalPath(v, at), 1);
    hide Tidy, Split, LogicalPath;
    TidyOfNames(Parts(at), "");
    assert ([v.title] + Parts(at))[1..] == Parts(at);
    assert Joined(Parts(at)) + "" == Joined(Parts(at));
  }

  /** With such a label the owner's path leads into the volume itself. */
  lemma OwnersPathLeadsThere(site: Site, v: AssignedVolume, at: string)
    requires Consistent(site) && v in site.rows && NamesSomething(v.title) && Tidy(at)
    ensures var path := LogicalPath(v, at);
            && ParsePathSpace(site.personalEnabled, path) == Some(ToVolume(path))
            && VolumeForPath(site, v.userId, path) == Some(v)
            && StepsIntoPersonal(site.w, v.path, Joined(Parts(path)[1..])) == StepsIntoPersonal(site.w, v.path, at)
  {
    var path := LogicalPath(v, at);
    PartsOfLogicalPath(v, at);
    TidyIsFixed(path);
    FoundByLabel(site.rows, v);
    assert LeadOf(site.personalEnabled, path) == ToVolume(path);
    hide NormalizeRelative, Tidy, Parts, LogicalPath, Joined, ResolvedBelow, NamesSomething, VolumeNamed, Split;
    SamePlace(v.path, Joined(Parts(path)[1..]), at);
  }

  /** The names a volume's path is made of say something, unless all there was is "./". */
  lemma LeadsByNames(personalEnabled: bool, raw: string)
    requires ParsePathSpace(personalEnabled, raw).Some? && ParsePathSpace(personalEnabled, raw).value.ToVolume?
    ensures var rel := ParsePathSpace(personalEnabled, raw).value.rel;
            AllName(Parts(rel)) || (rel == "./" && NormalizeRelative(raw) == Some("./") && Parts(rel) == ["."])
  {
    var n := NormalizeRelative(raw).value;
    NormalizedExactly(raw);
    if n == "./" {
      DotSlashSplit();
      hide NormalizeRelative, Parts, Joined, Split;
    } else if n == "" {
      NothingHere();
    } else {
      SegmentsOfTidy(n);
      BehindSegments(n, 1);
      hide NormalizeRelative, Parts, Joined, Split;
    }
  }

  /** What follows the token of a share is a tidy path, however the path to it was spelled. */
  lemma InsideSharesIsTidy(personalEnabled: bool, raw: string)
    requires ParsePathSpace(personalEnabled, raw).Some? && ParsePathSpace(personalEnabled, raw).value.ToShare?
    ensures var lead := ParsePathSpace(personalEnabled, raw).value; Tidy(lead.inner) && NamesSomething(lead.token)
  {
    var n := NormalizeRelative(raw).value;
    NormalizedExactly(raw);
    DotSlashSplit();
    SegmentsOfTidy(n);
    hide NormalizeRelative, Parts, Joined, Split, NamesSomething;
    var names, segments := Parts(n), Split(n, '/');
    assert |names| >= 2 && names[1] == segments[1] && names[1] in names;
    BehindSegments(n, 2);
    assert segments[1..][1..] == segments[2..];
  }

  /**
   A volume whose label names nothing that could be a segment is never where a path leads, whatever the
   path; only the label "." is found, by paths that come to "./".
   */
  lemma OddLabelIsNeverFound(site: Site, userId: string, raw: string, v: AssignedVolume)
    requires v.title != "" && !NamesSomething(v.title)
    requires ParsePathSpace(site.personalEnabled, raw).Some? && ParsePathSpace(site.personalEnabled, raw).value.ToVolume?
    ensures var rel := ParsePathSpace(site.personalEnabled, raw).value.rel;
            VolumeForPath(site, userId, rel) == Some(v) ==> v.title == "." && NormalizeRelative(raw) == Some("./")
  {
    var rel := ParsePathSpace(site.personalEnabled, raw).value.rel;
    LeadsByNames(site.personalEnabled, raw);
    hide ParsePathSpace, Parts, NormalizeRelative;
    if Parts(rel) != [] {
      assert Parts(rel)[0] in Parts(rel);
      NamedIsAssigned(site.rows, userId, Parts(rel)[0]);
    }
  }

  /** The owner's path is refused exactly when the label by itself is. */
  lemma OwnersPathRefused(v: AssignedVolume, at: string)
    requires v.title != "" && Tidy(at)
    ensures NormalizeRelative(LogicalPath(v, at)).None? <==> NormalizeRelative(v.title).None?
  {
    TidyBehind(v.title, at);
    NormalizedBy(LogicalPath(v, at));
    NormalizedBy(v.title);
    var names := NamesIn(ForwardSlashes(v.title));
    hide NormalizeRelative, NamesIn, Absolute, Trailing, Parts, ForwardSlashes, Joined;
    if names == [] {
      assert names + Parts(at) == Parts(at);
      if Parts(at) != [] { assert Parts(at)[0] in Parts(at); }
    }
  }

  /** Below the label ".", it is the path below that is left, and never "./". */
  lemma DotIsDropped(v: AssignedVolume, at: string)
    requires v.title == "." && Tidy(at)
    ensures NormalizeRelative(LogicalPath(v, at)) == Some(at)
    ensures at != "./"
  {
    TidyBehind(".", at);
    TidyNames(at);
    DotAlone();
    NormalizedBy(LogicalPath(v, at));
    assert [] + Parts(at) == Parts(at);
    DotSlashSplit();
    hide NormalizeRelative, NamesIn, Parts, Joined, Absolute;
    if Parts(at) != [] { assert Parts(at)[0] in Parts(at); }
  }

  lemma DotAlone()
    ensures ForwardSlashes(".") == "." && NamesIn(".") == [] && !Absolute(".") && !Trailing(".")
  {
    assert "."[1..] == "";
    SplitWithout(".", '/');
    assert ["."][1..] == [];
  }

  /**
   A share of a place in an assigned volume is its owner there if the label of the volume names something: it
   is answered exactly where the owner would be, going there by its path, and writes exactly where the owner
   does and the share was made to. If the label climbs, both are refused. With any other label the owner's
   path leads elsewhere.
   */
  lemma ShareOfAssignedIsItsOwner(site: Site, q: Question, owner: Context)
    requires SharedByItsOwner(site, q, owner)
    ensures var share, v, path := site.w.shares[q.token], SharedVolume(site, q, owner), OwnersPath(site, q, owner);
            var info, access, lead := Decide(site.w, q), GetAccessInfo(site, owner, path), ParsePathSpace(site.personalEnabled, path);
            && (NamesSomething(v.title) ==> Alike(share, info, access) && lead == Some(ToVolume(path))
                                            && VolumeForPath(site, v.userId, path) == Some(v))
            && (NormalizeRelative(v.title).None? ==> info.Denied? && access == NoAccess(PathRefused))
            && (!NamesSomething(v.title) && lead.Some? && lead.value.ToVolume? ==>
                  VolumeForPath(site, v.userId, lead.value.rel) != Some(v))
  {
    var v, at := SharedVolume(site, q, owner), SharedPlace(site.w.shares[q.token], q.inner);
    if NamesSomething(v.title) {
      OwnersPathLeadsThere(site, v, at);
      NamedIsItsOwner(site, q, owner);
    } else {
      OddLeadsElsewhere(site, v, at);
    }
    OwnersPathRefused(v, at);
    if NormalizeRelative(v.title).None? { RefusedToBoth(site, q, owner); }
    hide Tidy, LogicalPath, NamesSomething, NormalizeRelative, LeadOf, VolumeForPath, Alike, Decide, DecideVolume, DecideShare;
  }

  lemma NamedIsItsOwner(site: Site, q: Question, owner: Context)
    requires SharedByItsOwner(site, q, owner) && NamesSomething(SharedVolume(site, q, owner).title)
    ensures Alike(site.w.shares[q.token], Decide(site.w, q), GetAccessInfo(site, owner, OwnersPath(site, q, owner)))
  {
    var share, v := site.w.shares[q.token], SharedVolume(site, q, owner);
    var at := SharedPlace(share, q.inner);
    OwnersPathLeadsThere(site, v, at);
    PlaceDecides(site.w, q);
    hide Permitted, StepsIntoPersonal, Tidy, ParsePathSpace, Under, LogicalPath, NamesSomething, NormalizeRelative, VolumeForPath,
      Opens, Consistent, LimitOf, ByRules, GrantFor, Decide, SharedPlace;
    SameRules(site.w.access, LogicalPath(v, at), v.readOnly, share, q.ctx.user);
  }

  lemma RefusedToBoth(site: Site, q: Question, owner: Context)
    requires SharedByItsOwner(site, q, owner) && NormalizeRelative(SharedVolume(site, q, owner).title).None?
    ensures Decide(site.w, q).Denied? && GetAccessInfo(site, owner, OwnersPath(site, q, owner)) == NoAccess(PathRefused)
  {
    var share, v := site.w.shares[q.token], SharedVolume(site, q, owner);
    OwnersPathRefused(v, SharedPlace(share, q.inner));
    PlaceDecides(site.w, q);
    hide StepsIntoPersonal, Tidy, Under, LogicalPath, NormalizeRelative, Opens, GrantFor, Decide, SharedPlace;
  }

  lemma OddLeadsElsewhere(site: Site, v: AssignedVolume, at: string)
    requires v.title != "" && !NamesSomething(v.title) && Tidy(at)
    ensures var lead := ParsePathSpace(site.personalEnabled, LogicalPath(v, at));
            lead.Some? && lead.value.ToVolume? ==> VolumeForPath(site, v.userId, lead.value.rel) != Some(v)
  {
    var lead := ParsePathSpace(site.personalEnabled, LogicalPath(v, at));
    if lead.Some? && lead.value.ToVolume? {
      OddLabelIsNeverFound(site, v.userId, LogicalPath(v, at), v);
      if v.title == "." { DotIsDropped(v, at); }
    }
  }

  // ----- For which labels a share gives no more than its owner has

  /** The share is answered only where its owner is, and writes only where its owner does. */
  ghost predicate NoMoreThanOwner(site: Site, q: Question, owner: Context)
    requires SharedByItsOwner(site, q, owner)
  {
    var info, access := Decide(site.w, q), GetAccessInfo(site, owner, OwnersPath(site, q, owner));
    info.Allowed? ==> access.Access? && (info.grant.canWrite ==> access.canWrite)
  }

  /** A token other than the one the label, read as a path, would lead to. */
  ghost function TokenBeside(title: string): (token: string)
    ensures token != ""
  {
    match ParsePathSpace(false, title)
    case Some(ToShare(token, _)) => token + "x"
    case _ => "token"
  }

  ghost function SomeId(): (id: string)
    ensures id != ""
  {
    "id"
  }

  /** A folder, shared read-write with anyone by whom it is assigned to. */
  ghost function OneShare(): (share: Share)
    ensures share.sharing == Anyone && share.readWrite && !share.hasPassword && share.expiry == Never && share.space == UserVolume
    ensures share.ownerId == share.volumeId == SomeId() && share.isDirectory && share.innerRest == ""
  {
    Share("share", Anyone, true, SomeId(), false, Never, true, UserVolume, "folder", SomeId(), "", None, None, None, None, None)
  }

  /** One assigned volume of the label, shared, with no rules and no personal folders. */
  ghost function OneVolume(title: string): Site {
    var v := AssignedVolume(SomeId(), title, "/srv/data", false);
    Site(World(map[TokenBeside(title) := OneShare()], map[SomeId() := v], {}, Rules([], false), 0, true, "/srv", at => false),
         true, [v], false)
  }

  ghost function Owner(): Context { Context(Some(User(SomeId(), {})), None) }

  /** The owner opens the share and may write there; going to the same place by its path, the owner is refused. */
  lemma OddLabelOutdoesItsOwner(title: string)
    requires title != "" && !NamesSomething(title) && NormalizeRelative(title).Some?
    ensures var site, q := OneVolume(title), Question(Owner(), TokenBeside(title), "");
            && SharedByItsOwner(site, q, Owner()) && SharedVolume(site, q, Owner()).title == title
            && Decide(site.w, q).Allowed? && Decide(site.w, q).grant.canWrite
            && GetAccessInfo(site, Owner(), OwnersPath(site, q, Owner())).NoAccess?
  {
    OwnerSharesIt(title);
    OwnerGoesElsewhere(title);
    var site, q := OneVolume(title), Question(Owner(), TokenBeside(title), "");
    assert Permitted(site.w.access, title, false) == Some(ReadWrite);
    PlaceDecides(site.w, q);
    hide NormalizeRelative, NamesSomething, Tidy, Permitted, TokenBeside, GetAccessInfo, Decide, SharedByItsOwner, Opens, SomeId, OneShare;
  }

  lemma OwnerSharesIt(title: string)
    requires title != "" && !NamesSomething(title)
    ensures var site, q := OneVolume(title), Question(Owner(), TokenBeside(title), "");
            Opens(site.w, q) && SharedByItsOwner(site, q, Owner()) && OwnersPath(site, q, Owner()) == title
  {
    OneVolumeIsConsistent(title);
    OneShareOpens(title);
    NothingHere();
    assert Tidy("");
    hide NamesSomething, Tidy, TokenBeside, Consistent, SomeId, OneShare, Opens, CombineRelative;
  }

  lemma OneShareOpens(title: string)
    ensures Opens(OneVolume(title).w, Question(Owner(), TokenBeside(title), ""))
  {
    hide TokenBeside, SomeId, OneShare;
  }

  lemma OneVolumeIsConsistent(title: string)
    requires title != "" && !NamesSomething(title)
    ensures Consistent(OneVolume(title))
  {
    if title in RESERVED { OnlyOddLabels(title); }
    hide NamesSomething, TokenBeside, SomeId;
  }

  /** The owner's path leads to no volume, or to a share that is not there. */
  lemma OwnerGoesElsewhere(title: string)
    requires title != "" && !NamesSomething(title)
    ensures GetAccessInfo(OneVolume(title), Owner(), title).NoAccess?
  {
    var site := OneVolume(title);
    NothingHere();
    assert Tidy("") && LogicalPath(site.rows[0], "") == title;
    OddLeadsElsewhere(site, site.rows[0], "");
    hide NormalizeRelative, NamesSomething, Tidy, LeadOf, Permitted, Parts;
    match ParsePathSpace(false, title)
    case Some(ToVolume(rel)) => NamedIsAssigned(site.rows, SomeId(), if Parts(rel) == [] then "" else Parts(rel)[0]);
    case _ =>
  }

  lemma OnlyOddLabels(title: string)
    requires title in RESERVED
    ensures NamesSomething(title)
  {
  }

  /**
   A label keeps every share of its volume within what the owner has if and only if it names something, or
   is refused itself when it is read as a path.
   */
  lemma NoMoreExactlyWhenNamed(title: string)
    requires title != "" && title !in RESERVED
    ensures NamesSomething(title) || NormalizeRelative(title).None? <==>
            forall site, q, owner :: SharedByItsOwner(site, q, owner) && SharedVolume(site, q, owner).title == title
                                     ==> NoMoreThanOwner(site, q, owner)
  {
    hide SharedByItsOwner, NormalizeRelative, NamesSomething;
    if !NamesSomething(title) && NormalizeRelative(title).Some? {
      OddLabelOutdoesItsOwner(title);
      assert !NoMoreThanOwner(OneVolume(title), Question(Owner(), TokenBeside(title), ""), Owner());
    } else {
      forall site, q, owner | SharedByItsOwner(site, q, owner) && SharedVolume(site, q, owner).title == title
        ensures NoMoreThanOwner(site, q, owner)
      {
        ShareOfAssignedIsItsOwner(site, q, owner);
      }
    }
  }

  lemma {:induction false} NeverClimbs(depth: nat, segments: seq<string>)
    requires ".." !in segments
    ensures !ClimbsOut(depth, segments)
    decreases |segments|
  {
    if segments != [] {
      assert forall p :: p in segments[1..] ==> p in segments;
      NeverClimbs(depth, segments[1..]);
      NeverClimbs(depth + 1, segments[1..]);
    }
  }

  /** A label with a slash or a backslash in it, none of its segments "..", outdoes its owner; so does the label ".". */
  lemma LabelsThatOutdo(title: string)
    requires title == "." || (('/' in title || '\\' in title) && ".." !in Split(ForwardSlashes(title), '/'))
    ensures !NamesSomething(title) && NormalizeRelative(title).Some?
  {
    if title == "." {
      DotAlone();
      SplitWithout(".", '/');
    }
    NeverClimbs(0, Split(ForwardSlashes(title), '/'));
    RefusedWhenClimbing(title);
    hide NormalizeRelative;
  }

  /** Three labels that are accepted and outdo their owner. */
  lemma BackslashAndDotOutdo()
    ensures forall title :: title in ["a\\b", ".", "a/b"] ==>
              var site, q := OneVolume(title), Question(Owner(), TokenBeside(title), "");
              && SharedByItsOwner(site, q, Owner()) && SharedVolume(site, q, Owner()).title == title
              && !NoMoreThanOwner(site, q, Owner())
  {
    forall title | title in ["a\\b", ".", "a/b"]
      ensures var site, q := OneVolume(title), Question(Owner(), TokenBeside(title), "");
              && SharedByItsOwner(site, q, Owner()) && SharedVolume(site, q, Owner()).title == title
              && !NoMoreThanOwner(site, q, Owner())
    {
      if title != "." {
        assert ForwardSlashes(title) == "a" + ['/'] + "b";
        SplitAt("a", "b", '/');
        SplitWithout("b", '/');
        assert title[1] in title;
      }
      LabelsThatOutdo(title);
      OddLabelOutdoesItsOwner(title);
    }
  }

  // ----- What an account reaches

  /** With assigned volumes, an ordinary account reaches nothing in the volume but the folders assigned to it. */
  lemma OnlyAssigned(site: Site, ctx: Context, rel: string)
    requires Ordinary(ctx) && site.userVolumes && DecideVolume(site, ctx, rel).Access?
    ensures Parts(rel) != []
    ensures exists v :: v in site.rows && v.userId == ctx.user.value.id && v.title == Parts(rel)[0]
                        && (DecideVolume(site, ctx, rel).canWrite ==> !v.readOnly)
  {
    hide Permitted, Parts, StepsIntoPersonal;
    NamedIsAssigned(site.rows, ctx.user.value.id, Parts(rel)[0]);
  }

  lemma {:induction false} NamedIsAssigned(rows: seq<AssignedVolume>, userId: string, name: string)
    ensures var v := VolumeNamed(rows, userId, name);
            v.Some? ==> v.value in rows && v.value.userId == userId && v.value.title == name
  {
    if rows != [] {
      NamedIsAssigned(rows[1..], userId, name);
      assert rows == [rows[0]] + rows[1..];
    }
  }

  ghost function Administrator(): Context { Context(Some(User("a", {"admin"})), None) }

  ghost function Account(): Context { Context(Some(User("u", {})), None) }

  /**
   Skipping the rules that do not hold them, an administrator can come to one that keeps them out of what
   others may open: exactly where the first rule on the path that holds administrators hides it, and the
   first rule on the path, which does not hold them, does not.
   */
  lemma AdministratorIsHeldExactly(site: Site, raw: string)
    requires !site.userVolumes && !StepsIntoPersonal(site.w, site.w.volumeRoot, raw) && NormalizeRelative(raw).Some?
    ensures var access, rel := site.w.access, NormalizeRelative(raw).value;
            DecideVolume(site, Administrator(), raw) == NoAccess(IsHidden) && DecideVolume(site, Account(), raw).Access? <==>
            exists i, j :: && 0 <= i < j < |access.rules|
                           && DecidesFirst(access, i, rel, false) && Granted(access.rules[i]) != Hidden
                           && DecidesFirst(access, j, rel, true) && Granted(access.rules[j]) == Hidden
  {
    var access, rel := site.w.access, NormalizeRelative(raw).value;
    HeldExactly(access, rel);
    hide NormalizeRelative, StepsIntoPersonal, Resolve, DecidesFirst, Granted;
  }

  /** Such a pair of rules: the first leaves administrators out, the second does not. */
  lemma AdministratorCanBeHeldWhereOthersPass(site: Site, rel: string)
    requires !site.userVolumes && Tidy(rel) && rel != "" && !StepsIntoPersonal(site.w, site.w.volumeRoot, rel)
    requires site.w.access == Rules([Rule(rel, false, Some(ReadWrite), None), Rule(rel, false, Some(Hidden), None)], false)
    ensures DecideVolume(site, Administrator(), rel) == NoAccess(IsHidden)
    ensures DecideVolume(site, Account(), rel).Access?
  {
    TidyIsFixed(rel);
    hide NormalizeRelative, Tidy, DecideVolume, StepsIntoPersonal, Administrator, Account;
    TwoRulesDecide(site.w.access, rel);
    hide DecidesFirst;
    AdministratorIsHeldExactly(site, rel);
  }

  lemma TwoRulesDecide(access: Rules, rel: string)
    requires rel != ""
    requires access == Rules([Rule(rel, false, Some(ReadWrite), None), Rule(rel, false, Some(Hidden), None)], false)
    ensures DecidesFirst(access, 0, rel, false) && DecidesFirst(access, 1, rel, true)
  {
    hide StartsWith;
  }
}
