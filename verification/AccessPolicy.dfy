/** `access.py`: the default-deny channel policy over one user's rows. */
module AccessPolicy {
  import opened Text

  datatype Level = Read | Write | Ask | UnknownLevel
  datatype Op = ListOp | ReadOp | WriteOp

  /** A `users` row as the policy sees it; `approved` and `admin` are its state and role. */
  datatype User = User(approved: bool, admin: bool)

  /** One `channel` grant, in the order the store returns them. */
  datatype Grant = Grant(channel: string, level: Level)

  predicate Grants(level: Level, op: Op) {
    match op
    case ListOp => level != UnknownLevel
    case ReadOp => level != UnknownLevel
    case WriteOp => level == Write || level == Ask
  }

  /** The first grant on exactly this channel decides. */
  function LevelOn(grants: seq<Grant>, channel: string): Level {
    if grants == [] then UnknownLevel
    else if grants[0].channel == channel then grants[0].level
    else LevelOn(grants[1..], channel)
  }

  predicate Allowed(user: Option<User>, grants: seq<Grant>, channel: string, op: Op) {
    && channel != ""
    && user.Some? && user.value.approved
    && (user.value.admin || Grants(LevelOn(grants, channel), op))
  }

  /** The grant at `i` is the first on exactly this channel. */
  predicate FirstOn(grants: seq<Grant>, channel: string, i: nat) {
    i < |grants| && grants[i].channel == channel && forall j | 0 <= j < i :: grants[j].channel != channel
  }

  /** The levels that let somebody list, read or write. */
  function Covering(op: Op): set<Level> {
    if op == WriteOp then {Write, Ask} else {Read, Write, Ask}
  }

  /** The first grant on exactly this channel has a covering level. */
  ghost predicate Covers(grants: seq<Grant>, channel: string, op: Op) {
    exists i: nat :: FirstOn(grants, channel, i) && grants[i].level in Covering(op)
  }

  /** The policy, by cases: nobody unknown or unapproved passes, an approved admin always does, and
      anybody else exactly when the first grant on that very channel has a covering level. */
  ghost predicate ByPolicy(user: Option<User>, grants: seq<Grant>, channel: string, op: Op) {
    if channel == "" || user == None || !user.value.approved then false
    else if user.value.admin then true
    else Covers(grants, channel, op)
  }

  lemma {:induction false} LevelIsFirst(grants: seq<Grant>, channel: string, i: nat)
    requires FirstOn(grants, channel, i)
    ensures LevelOn(grants, channel) == grants[i].level
    decreases i
  {
    if i > 0 {
      assert grants[0].channel != channel;
      forall j | 0 <= j < i - 1 ensures grants[1..][j].channel != channel {
        assert grants[1..][j] == grants[j + 1];
      }
      LevelIsFirst(grants[1..], channel, i - 1);
    }
  }

  lemma {:induction false} FirstGrant(grants: seq<Grant>, channel: string) returns (first: Option<nat>)
    ensures first.Some? ==> FirstOn(grants, channel, first.value)
    ensures first == None ==>
              LevelOn(grants, channel) == UnknownLevel && forall i | 0 <= i < |grants| :: grants[i].channel != channel
    decreases |grants|
  {
    if grants == [] {
      return None;
    }
    if grants[0].channel == channel {
      return Some(0);
    }
    var rest := FirstGrant(grants[1..], channel);
    if rest == None {
      return None;
    }
    first := Some(rest.value + 1);
    forall j | 0 <= j <= rest.value ensures grants[j].channel != channel {
      assert j > 0 ==> grants[j] == grants[1..][j - 1];
    }
  }

  lemma GrantsCover(grants: seq<Grant>, channel: string, op: Op)
    ensures Grants(LevelOn(grants, channel), op) <==> Covers(grants, channel, op)
  {
    var first := FirstGrant(grants, channel);
    if first.Some? {
      LevelIsFirst(grants, channel, first.value);
    }
    if Covers(grants, channel, op) {
      var i: nat :| FirstOn(grants, channel, i) && grants[i].level in Covering(op);
      LevelIsFirst(grants, channel, i);
    }
  }

  /** The policy decides by the first grant on exactly that channel, and by its level. */
  lemma AllowedExactly(user: Option<User>, grants: seq<Grant>, channel: string, op: Op)
    ensures Allowed(user, grants, channel, op) <==> ByPolicy(user, grants, channel, op)
  {
    GrantsCover(grants, channel, op);
    hide Grants, LevelOn, Covers;
  }

  /** `_allowed`: the loop over the grants. */
  method CheckAllowed(user: Option<User>, grants: seq<Grant>, channel: string, op: Op) returns (ok: bool)
    ensures ok == Allowed(user, grants, channel, op) == ByPolicy(user, grants, channel, op)
  {
    AllowedExactly(user, grants, channel, op);
    if channel == "" {
      return false;
    }
    if user == None || !user.value.approved {
      return false;
    }
    if user.value.admin {
      return true;
    }
    for i := 0 to |grants|
      invariant LevelOn(grants, channel) == LevelOn(grants[i..], channel)
    {
      assert grants[i..][1..] == grants[i + 1..];
      if grants[i].channel == channel {
        return Grants(grants[i].level, op);
      }
    }
    return false;
  }

  /** Writing implies reading, and reading is listing: the sweep's two questions are one. */
  lemma OpsAreOrdered(user: Option<User>, grants: seq<Grant>, channel: string)
    ensures Allowed(user, grants, channel, ListOp) <==> Allowed(user, grants, channel, ReadOp)
    ensures Allowed(user, grants, channel, WriteOp) ==> Allowed(user, grants, channel, ReadOp)
  {
  }

  /** Only an approved admin passes without a grant on exactly that channel. */
  lemma {:induction false} NonAdminNeedsExactGrant(user: Option<User>, grants: seq<Grant>, channel: string, op: Op)
    requires Allowed(user, grants, channel, op) && !user.value.admin
    ensures exists i :: 0 <= i < |grants| && grants[i].channel == channel && grants[i].level in Covering(op)
    decreases |grants|
  {
    if grants[0].channel != channel {
      NonAdminNeedsExactGrant(user, grants[1..], channel, op);
      var i :| 0 <= i < |grants[1..]| && grants[1..][i].channel == channel && grants[1..][i].level in Covering(op);
      assert grants[i + 1] == grants[1..][i];
    }
  }
}
