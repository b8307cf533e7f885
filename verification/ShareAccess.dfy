/**
 Deciding about a path inside a share. The share itself, then the caller, then the place it leads to can each
 refuse; what none of them refuses is granted as far as all three allow. `World` is what the database and the settings hold while the
 questions are asked; the two caches a caller may hand in must not change any answer.
 */
module ShareAccess {
  import opened Common
  import opened Text
  import opened RelativePaths

  // ----- Access rules

  datatype Permission = ReadWrite | ReadOnly | Hidden

  /** A stored rule, its path as `NormalizeRelative` leaves it: reading it again changes nothing. */
  datatype Rule = Rule(path: string, recursive: bool, permissions: Option<Permission>, appliesToAdmins: Option<bool>)

  datatype Rules = Rules(rules: seq<Rule>, applyToAdmins: bool)

  function Granted(rule: Rule): Permission { if rule.permissions.Some? then rule.permissions.value else ReadWrite }

  predicate AppliesToAdmins(rule: Rule) {
    if rule.appliesToAdmins.Some? then rule.appliesToAdmins.value else Granted(rule) == Hidden
  }

  predicate HeldTo(rule: Rule, isAdmin: bool, applyToAdmins: bool) { !isAdmin || applyToAdmins || AppliesToAdmins(rule) }

  predicate Covers(rule: Rule, rel: string) {
    rule.path != "" && (rel == rule.path || (rule.recursive && StartsWith(rel, rule.path + "/")))
  }

  predicate Decides(access: Rules, i: nat, rel: string, isAdmin: bool)
    requires i < |access.rules|
  {
    Covers(access.rules[i], rel) && HeldTo(access.rules[i], isAdmin, access.applyToAdmins)
  }

  function ResolveFrom(access: Rules, i: nat, rel: string, isAdmin: bool): Permission
    requires i <= |access.rules|
    decreases |access.rules| - i
  {
    if i == |access.rules| then ReadWrite
    else if Decides(access, i, rel, isAdmin) then Granted(access.rules[i])
    else ResolveFrom(access, i + 1, rel, isAdmin)
  }

  function Resolve(access: Rules, rel: string, isAdmin: bool): Permission { ResolveFrom(access, 0, rel, isAdmin) }

  /** What the rules say of a path as it is asked about; nothing when it climbs, for then the asking fails. */
  function Permitted(access: Rules, raw: string, isAdmin: bool): Option<Permission> {
    match NormalizeRelative(raw)
    case None => None
    case Some(rel) => Some(Resolve(access, rel, isAdmin))
  }

  /** The loop of the prepared resolver. */
  method ResolverLoop(access: Rules, raw: string, isAdmin: bool) returns (p: Option<Permission>)
    ensures p == Permitted(access, raw, isAdmin)
  {
    var normalized := NormalizeRelative(raw);
    if normalized.None? { return None; }
    var rel := normalized.value;
    for i := 0 to |access.rules|
      invariant ResolveFrom(access, i, rel, isAdmin) == Resolve(access, rel, isAdmin)
    {
      var rule := access.rules[i];
      if rule.path == "" { continue; }
      if !HeldTo(rule, isAdmin, access.applyToAdmins) { continue; }
      var matches := if rule.recursive then rel == rule.path || StartsWith(rel, rule.path + "/") else rel == rule.path;
      if matches { return Some(Granted(rule)); }
    }
    return Some(ReadWrite);
  }

  /** The first rule that covers the path and holds the caller decides; with none, the path may be written. */
  lemma {:induction false} FirstRuleDecides(access: Rules, from: nat, rel: string, isAdmin: bool)
    requires from <= |access.rules|
    ensures var p := ResolveFrom(access, from, rel, isAdmin);
            || (exists i :: from <= i < |access.rules| && Decides(access, i, rel, isAdmin) && p == Granted(access.rules[i])
                            && forall j :: from <= j < i ==> !Decides(access, j, rel, isAdmin))
            || ((forall j :: from <= j < |access.rules| ==> !Decides(access, j, rel, isAdmin)) && p == ReadWrite)
    decreases |access.rules| - from
  {
    if from < |access.rules| && !Decides(access, from, rel, isAdmin) {
      FirstRuleDecides(access, from + 1, rel, isAdmin);
    }
  }

  /** The first rule of all that decides. */
  ghost predicate DecidesFirst(access: Rules, i: nat, rel: string, isAdmin: bool) {
    && i < |access.rules| && Decides(access, i, rel, isAdmin)
    && forall j :: 0 <= j < i ==> !Decides(access, j, rel, isAdmin)
  }

  /** An administrator is kept out where others are not exactly when a rule before the one that hides the path leaves them out. */
  lemma HeldExactly(access: Rules, rel: string)
    ensures Resolve(access, rel, true) == Hidden && Resolve(access, rel, false) != Hidden <==>
            exists i, j :: && 0 <= i < j < |access.rules|
                           && DecidesFirst(access, i, rel, false) && Granted(access.rules[i]) != Hidden
                           && DecidesFirst(access, j, rel, true) && Granted(access.rules[j]) == Hidden
  {
    FirstDecides(access, rel, true);
    FirstDecides(access, rel, false);
    hide Resolve, Decides;
    if Resolve(access, rel, true) == Hidden && Resolve(access, rel, false) != Hidden {
      var j :| 0 <= j < |access.rules| && DecidesFirst(access, j, rel, true);
      FirstUpTo(access, j, rel, true);
      var i :| 0 <= i <= j && DecidesFirst(access, i, rel, false);
    }
  }

  /** The rule that decides first is the answer; there is one unless no rule decides. */
  lemma FirstDecides(access: Rules, rel: string, isAdmin: bool)
    ensures forall i :: 0 <= i < |access.rules| && DecidesFirst(access, i, rel, isAdmin) ==>
              Resolve(access, rel, isAdmin) == Granted(access.rules[i])
    ensures Resolve(access, rel, isAdmin) != ReadWrite ==> exists i :: 0 <= i < |access.rules| && DecidesFirst(access, i, rel, isAdmin)
  {
    FirstRuleDecides(access, 0, rel, isAdmin);
    hide ResolveFrom, Decides, Granted;
    if Resolve(access, rel, isAdmin) != ReadWrite {
      var i :| 0 <= i < |access.rules| && Decides(access, i, rel, isAdmin) && forall j :: 0 <= j < i ==> !Decides(access, j, rel, isAdmin);
      assert DecidesFirst(access, i, rel, isAdmin);
    }
  }

  /** What decides for anybody decides for an ordinary account, if nothing before it does. */
  lemma {:induction false} FirstUpTo(access: Rules, j: nat, rel: string, isAdmin: bool)
    requires j < |access.rules| && Decides(access, j, rel, isAdmin)
    ensures exists i :: 0 <= i <= j && DecidesFirst(access, i, rel, false)
  {
    assert Decides(access, j, rel, false);
    hide Decides;
    if k :| 0 <= k < j && Decides(access, k, rel, false) {
      FirstUpTo(access, k, rel, false);
    } else {
      assert DecidesFirst(access, j, rel, false);
    }
  }

  function Binding(rules: seq<Rule>): seq<Rule> {
    if rules == [] then [] else (if AppliesToAdmins(rules[0]) then [rules[0]] else []) + Binding(rules[1..])
  }

  /** To an administrator the rules that do not hold administrators might as well not be there. */
  lemma {:induction false} AdminsSkipRules(rules: seq<Rule>, rel: string)
    ensures Resolve(Rules(rules, false), rel, true) == Resolve(Rules(Binding(rules), false), rel, false)
  {
    if rules != [] {
      AdminsSkipRules(rules[1..], rel);
      var rest := Binding(rules[1..]);
      ResolveTail(Rules(rules, false), rel, true);
      if AppliesToAdmins(rules[0]) {
        assert Binding(rules) == [rules[0]] + rest;
        ResolveTail(Rules([rules[0]] + rest, false), rel, false);
        assert ([rules[0]] + rest)[1..] == rest;
      } else {
        assert Binding(rules) == rest;
      }
    }
  }

  lemma {:induction false} ResolveShift(access: Rules, tail: Rules, i: nat, rel: string, isAdmin: bool)
    requires access.rules != [] && tail == Rules(access.rules[1..], access.applyToAdmins) && i <= |tail.rules|
    ensures ResolveFrom(access, i + 1, rel, isAdmin) == ResolveFrom(tail, i, rel, isAdmin)
    decreases |tail.rules| - i
  {
    if i < |tail.rules| { ResolveShift(access, tail, i + 1, rel, isAdmin); }
  }

  lemma ResolveTail(access: Rules, rel: string, isAdmin: bool)
    requires access.rules != []
    ensures Resolve(access, rel, isAdmin) ==
            if Decides(access, 0, rel, isAdmin) then Granted(access.rules[0])
            else Resolve(Rules(access.rules[1..], access.applyToAdmins), rel, isAdmin)
  {
    ResolveShift(access, Rules(access.rules[1..], access.applyToAdmins), 0, rel, isAdmin);
  }

  // ----- Shares

  datatype Sharing = Users | Anyone | UnknownSharing
  datatype Expiry = Never | At(moment: int) | Malformed
  datatype Space = Volume | UserVolume | OtherSpace

  datatype Share = Share(
    id: string, sharing: Sharing, readWrite: bool, ownerId: string, hasPassword: bool, expiry: Expiry,
    isDirectory: bool, space: Space, sourcePath: string, volumeId: string, innerRest: string,
    allowDelete: Option<bool>, allowUpload: Option<bool>, allowCreateFolder: Option<bool>,
    allowCreateFile: Option<bool>, allowDownload: Option<bool>)

  datatype AssignedVolume = AssignedVolume(userId: string, title: string, path: string, readOnly: bool)

  datatype Membership = Membership(shareId: string, userId: string)

  datatype User = User(id: string, roles: set<string>)

  datatype Context = Context(user: Option<User>, guestOf: Option<string>)

  /** `inPersonal` says which absolute paths lie in somebody's personal folder. */
  datatype World = World(
    shares: map<string, Share>, volumes: map<string, AssignedVolume>, permitted: set<Membership>,
    access: Rules, now: int, authEnabled: bool, volumeRoot: string,
    inPersonal: string -> bool)

  datatype Denial =
    | TokenRequired | ShareNotFound | ShareExpired | AuthenticationRequired | AccessDenied | ShareAccessRequired
    | WrongGuestSession | PasswordRequired | UnknownSharingType | PathHidden | PersonalFolder
    | SourceInvalid | SourceNotFound | SourceMismatch | BadPath

  datatype Grant = Grant(
    canWrite: bool, canDelete: bool, canUpload: bool, canCreateFolder: bool, canCreateFile: bool, canDownload: bool, isOwner: bool)

  /** A granted caller may also access and read, and never share again. */
  datatype Info = Denied(reason: Denial) | Allowed(grant: Grant)

  /** A date that does not read as one counts as past. */
  predicate Expired(share: Share, now: int) { share.expiry.Malformed? || (share.expiry.At? && share.expiry.moment <= now) }

  predicate PasswordApplies(w: World, share: Share, user: Option<User>) {
    share.hasPassword && w.authEnabled && !(user.Some? && user.value.id == share.ownerId)
  }

  function CallerMayNotOpen(w: World, share: Share, ctx: Context): Option<Denial> {
    match share.sharing
    case Users =>
      if ctx.user.None? || ctx.user.value.id == "" then Some(AuthenticationRequired)
      else if Membership(share.id, ctx.user.value.id) in w.permitted then None else Some(AccessDenied)
    case Anyone =>
      if ctx.user.None? && ctx.guestOf.None? then Some(ShareAccessRequired)
      else if ctx.guestOf.Some? && ctx.user.None? && ctx.guestOf.value != share.id then Some(WrongGuestSession)
      else if PasswordApplies(w, share, ctx.user) && ctx.guestOf != Some(share.id) then Some(PasswordRequired)
      else None
    case UnknownSharing => Some(UnknownSharingType)
  }

  /** Whether a path below a root steps into a personal folder the root is not in. */
  predicate StepsIntoPersonal(w: World, root: string, at: string) {
    w.inPersonal(ResolvedBelow(root, at)) && !w.inPersonal(root)
  }

  function Under(share: Share, base: string, inner: string): Option<string> {
    if share.isDirectory && inner != "" then CombineRelative(base, inner) else Some(base)
  }

  datatype Limits = Refused(reason: Denial) | Limit(readOnly: bool)

  function LimitOf(permission: Option<Permission>, readOnly: bool): Limits {
    match permission
    case None => Refused(BadPath)
    case Some(p) => if p == Hidden then Refused(PathHidden) else Limit(readOnly || p == ReadOnly)
  }

  function VolumeLimits(w: World, share: Share, inner: string): Limits {
    match Under(share, share.sourcePath, inner)
    case None => Refused(BadPath)
    case Some(at) =>
      if StepsIntoPersonal(w, w.volumeRoot, at) then Refused(PersonalFolder)
      else LimitOf(Permitted(w.access, at, false), false)
  }

  function LogicalPath(v: AssignedVolume, at: string): string { if at != "" then v.title + "/" + at else v.title }

  function AssignedLimits(w: World, share: Share, inner: string): Limits {
    if share.volumeId == "" then Refused(SourceInvalid)
    else if share.volumeId !in w.volumes then Refused(SourceNotFound)
    else if w.volumes[share.volumeId].userId != share.ownerId then Refused(SourceMismatch)
    else
      var v := w.volumes[share.volumeId];
      match Under(share, share.innerRest, inner)
      case None => Refused(BadPath)
      case Some(at) =>
        if StepsIntoPersonal(w, v.path, at) then Refused(PersonalFolder)
        else LimitOf(Permitted(w.access, LogicalPath(v, at), false), v.readOnly)
  }

  function SourceLimits(w: World, share: Share, inner: string): Limits {
    match share.space
    case Volume => VolumeLimits(w, share, inner)
    case UserVolume => AssignedLimits(w, share, inner)
    case OtherSpace => Limit(false)
  }

  function GrantFor(share: Share, user: Option<User>, readOnly: bool): Grant {
    var rw := share.readWrite && !readOnly;
    Grant(rw, rw && share.allowDelete != Some(false), rw && share.allowUpload != Some(false),
          rw && share.allowCreateFolder != Some(false), rw && share.allowCreateFile != Some(false),
          share.allowDownload != Some(false), user.Some? && user.value.id == share.ownerId)
  }

  datatype Question = Question(ctx: Context, token: string, inner: string)

  function Decide(w: World, q: Question): Info {
    if q.token == "" then Denied(TokenRequired)
    else if q.token !in w.shares then Denied(ShareNotFound)
    else
      var share := w.shares[q.token];
      if Expired(share, w.now) then Denied(ShareExpired)
      else
        match CallerMayNotOpen(w, share, q.ctx)
        case Some(reason) => Denied(reason)
        case None =>
          match SourceLimits(w, share, q.inner)
          case Refused(reason) => Denied(reason)
          case Limit(readOnly) => Allowed(GrantFor(share, q.ctx.user, readOnly))
  }

  // ----- Who gets in

  /** The caller has an account, one with an id. */
  ghost predicate SignedIn(ctx: Context) { ctx.user.Some? && ctx.user.value.id != "" }

  ghost predicate IsOwner(share: Share, ctx: Context) { ctx.user.Some? && ctx.user.value.id == share.ownerId }

  /** The caller came in as a guest of this very share. */
  ghost predicate IsGuestHere(share: Share, ctx: Context) { ctx.guestOf.Some? && ctx.guestOf.value == share.id }

  /** The door of a share: whom it lets pass, whatever place it leads to. */
  ghost predicate LetsPass(w: World, share: Share, ctx: Context) {
    && (share.expiry == Never || (share.expiry.At? && share.expiry.moment > w.now))
    && match share.sharing
       case Users => SignedIn(ctx) && exists m :: m in w.permitted && m.shareId == share.id && m.userId == ctx.user.value.id
       case Anyone =>
         && (ctx.user.Some? || IsGuestHere(share, ctx))
         && (!share.hasPassword || !w.authEnabled || IsOwner(share, ctx) || IsGuestHere(share, ctx))
       case UnknownSharing => false
  }

  /** The place a share leads to is there, is the owner's still, and is hidden from nobody. */
  ghost predicate PlaceIsOpen(w: World, share: Share, inner: string) {
    match share.space
    case OtherSpace => true
    case Volume =>
      (match Under(share, share.sourcePath, inner)
       case None => false
       case Some(at) =>
         !StepsIntoPersonal(w, w.volumeRoot, at) && Permitted(w.access, at, false).Some? && Permitted(w.access, at, false) != Some(Hidden))
    case UserVolume =>
      && share.volumeId != "" && share.volumeId in w.volumes && w.volumes[share.volumeId].userId == share.ownerId
      && (match Under(share, share.innerRest, inner)
          case None => false
          case Some(at) =>
            var v := w.volumes[share.volumeId];
            var p := Permitted(w.access, LogicalPath(v, at), false);
            !StepsIntoPersonal(w, v.path, at) && p.Some? && p != Some(Hidden))
  }

  const OF_THE_PLACE := {PathHidden, PersonalFolder, SourceInvalid, SourceNotFound, SourceMismatch, BadPath}

  /** A share's own door is passed by exactly the callers it lets pass, and access is had exactly if its place is open besides. */
  lemma AllowedExactly(w: World, q: Question)
    ensures var info, named := Decide(w, q), q.token != "" && q.token in w.shares;
            && (info.Allowed? || info.reason in OF_THE_PLACE <==> named && LetsPass(w, w.shares[q.token], q.ctx))
            && (info.Allowed? <==> named && LetsPass(w, w.shares[q.token], q.ctx) && PlaceIsOpen(w, w.shares[q.token], q.inner))
  {
    hide Permitted, CombineRelative, ResolvedBelow;
    if q.token in w.shares { DoorOpens(w, w.shares[q.token], q.ctx); }
    hide LetsPass, Expired, CallerMayNotOpen;
  }

  lemma DoorOpens(w: World, share: Share, ctx: Context)
    ensures !Expired(share, w.now) && CallerMayNotOpen(w, share, ctx).None? <==> LetsPass(w, share, ctx)
    ensures CallerMayNotOpen(w, share, ctx).Some? ==> CallerMayNotOpen(w, share, ctx).value !in OF_THE_PLACE
  {
    if ctx.user.Some? {
      var m := Membership(share.id, ctx.user.value.id);
      assert m in w.permitted <==> exists m' :: m' in w.permitted && m'.shareId == share.id && m'.userId == ctx.user.value.id;
    }
  }

  // ----- What the answer depends on

  /** What the access rules say of the place a share's path names, for everybody and not for the caller; nothing if there is none. */
  ghost function SourcePermission(w: World, share: Share, inner: string): Option<Permission> {
    match share.space
    case Volume =>
      (match Under(share, share.sourcePath, inner)
       case None => None
       case Some(at) => Permitted(w.access, at, false))
    case UserVolume =>
      (match Under(share, share.innerRest, inner)
       case None => None
       case Some(at) =>
         if share.volumeId in w.volumes then Permitted(w.access, LogicalPath(w.volumes[share.volumeId], at), false) else None)
    case OtherSpace => Some(ReadWrite)
  }

  ghost predicate SourceReadOnly(w: World, share: Share, inner: string) {
    || SourcePermission(w, share, inner) == Some(ReadOnly)
    || (share.space == UserVolume && share.volumeId in w.volumes && w.volumes[share.volumeId].readOnly)
  }

  /** A share writes exactly when it was made to, and the place underneath may still be written; each flag besides on its own switch. */
  lemma WritesExactly(w: World, q: Question)
    requires Decide(w, q).Allowed?
    ensures q.token in w.shares
    ensures var share, g := w.shares[q.token], Decide(w, q).grant;
            && (g.canWrite <==> share.readWrite && !SourceReadOnly(w, share, q.inner))
            && (g.canDelete <==> g.canWrite && share.allowDelete != Some(false))
            && (g.canUpload <==> g.canWrite && share.allowUpload != Some(false))
            && (g.canCreateFolder <==> g.canWrite && share.allowCreateFolder != Some(false))
            && (g.canCreateFile <==> g.canWrite && share.allowCreateFile != Some(false))
            && (g.canDownload <==> share.allowDownload != Some(false))
            && (g.isOwner <==> IsOwner(share, q.ctx))
  {
    hide Permitted, CombineRelative, ResolvedBelow;
  }

  /** A source that is hidden, or not to be found, denies everybody everything, whatever the share grants and whoever asks. */
  lemma HiddenDenies(w: World, q: Question)
    requires q.token in w.shares
    requires var p := SourcePermission(w, w.shares[q.token], q.inner); p == None || p == Some(Hidden)
    ensures Decide(w, q).Denied?
  {
    hide Permitted, CombineRelative, ResolvedBelow;
  }

  /** Two accounts that differ in their roles alone, administrators or not, get the same answer. */
  lemma RolesDoNotMatter(w: World, q: Question, roles: set<string>)
    requires q.ctx.user.Some?
    ensures Decide(w, q.(ctx := q.ctx.(user := Some(q.ctx.user.value.(roles := roles))))) == Decide(w, q)
  {
    hide Permitted, CombineRelative, ResolvedBelow;
  }

  /** A password keeps out everybody but the owner and a guest who came through this share's own door. */
  lemma PasswordKeepsOut(w: World, q: Question)
    requires Decide(w, q).Allowed? && w.authEnabled
    requires q.token in w.shares && w.shares[q.token].sharing == Anyone && w.shares[q.token].hasPassword
    ensures var share := w.shares[q.token];
            (q.ctx.user.Some? && q.ctx.user.value.id == share.ownerId) || q.ctx.guestOf == Some(share.id)
  {
    hide Permitted, CombineRelative, ResolvedBelow;
  }

  // ----- The caches

  class Caches {
    var shares: map<string, Share>
    var volumes: map<string, AssignedVolume>

    /** Whatever is cached is what the database holds. */
    ghost predicate Agrees(w: World)
      reads this
    {
      && (forall t :: t in shares ==> t in w.shares && shares[t] == w.shares[t])
      && (forall v :: v in volumes ==> v in w.volumes && volumes[v] == w.volumes[v])
    }

    constructor ()
      ensures shares == map[] && volumes == map[]
    {
      shares, volumes := map[], map[];
    }

    method LoadShare(w: World, token: string) returns (share: Option<Share>)
      requires Agrees(w)
      modifies this`shares
      ensures Agrees(w) && share == (if token in w.shares then Some(w.shares[token]) else None)
    {
      if token in shares { return Some(shares[token]); }
      if token !in w.shares { return None; }
      shares := shares[token := w.shares[token]];
      return Some(w.shares[token]);
    }

    method LoadVolume(w: World, id: string) returns (volume: Option<AssignedVolume>)
      requires Agrees(w)
      modifies this`volumes
      ensures Agrees(w) && volume == (if id in w.volumes then Some(w.volumes[id]) else None)
    {
      if id in volumes { return Some(volumes[id]); }
      if id !in w.volumes { return None; }
      volumes := volumes[id := w.volumes[id]];
      return Some(w.volumes[id]);
    }

    method ReadSourceLimits(w: World, share: Share, inner: string) returns (limits: Limits)
      requires Agrees(w)
      modifies this`volumes
      ensures Agrees(w) && limits == SourceLimits(w, share, inner)
    {
      hide Agrees;
      match share.space
      case OtherSpace => limits := Limit(false);
      case Volume =>
        var at := Under(share, share.sourcePath, inner);
        if at.None? { return Refused(BadPath); }
        if StepsIntoPersonal(w, w.volumeRoot, at.value) { return Refused(PersonalFolder); }
        var p := ResolverLoop(w.access, at.value, false);
        limits := LimitOf(p, false);
      case UserVolume =>
        if share.volumeId == "" { return Refused(SourceInvalid); }
        var found := LoadVolume(w, share.volumeId);
        if found.None? { return Refused(SourceNotFound); }
        var v := found.value;
        if v.userId != share.ownerId { return Refused(SourceMismatch); }
        var at := Under(share, share.innerRest, inner);
        if at.None? { return Refused(BadPath); }
        if StepsIntoPersonal(w, v.path, at.value) { return Refused(PersonalFolder); }
        var p := ResolverLoop(w.access, LogicalPath(v, at.value), false);
        limits := LimitOf(p, v.readOnly);
    }

    method GetShareAccess(w: World, q: Question) returns (info: Info)
      requires Agrees(w)
      modifies this
      ensures Agrees(w) && info == Decide(w, q)
    {
      if q.token == "" { return Denied(TokenRequired); }
      var found := LoadShare(w, q.token);
      if found.None? { return Denied(ShareNotFound); }
      var share := found.value;
      if Expired(share, w.now) { return Denied(ShareExpired); }
      var refused := CallerMayNotOpen(w, share, q.ctx);
      if refused.Some? { return Denied(refused.value); }
      var limits := ReadSourceLimits(w, share, q.inner);
      if limits.Refused? { return Denied(limits.reason); }
      return Allowed(GrantFor(share, q.ctx.user, limits.readOnly));
    }

    /** Any questions in any order, sharing the caches, are answered as each would be alone. */
    method AskAll(w: World, questions: seq<Question>) returns (answers: seq<Info>)
      requires Agrees(w)
      modifies this
      ensures Agrees(w) && |answers| == |questions|
      ensures forall i :: 0 <= i < |questions| ==> answers[i] == Decide(w, questions[i])
    {
      answers := [];
      for i := 0 to |questions|
        invariant Agrees(w) && |answers| == i
        invariant forall j :: 0 <= j < i ==> answers[j] == Decide(w, questions[j])
      {
        hide Decide;
        var info := GetShareAccess(w, questions[i]);
        answers := answers + [info];
      }
    }
  }
}
