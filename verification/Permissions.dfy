/**
 Effective permissions of a guild member in a channel. A flag value is represented by the set of
 its bit positions. Bits that name no permission can be granted and allowed like any other, but
 taking flags away goes through the complement of a Python `IntFlag`, which is only as wide
 as the defined permissions or the flags themselves and so loses bits above it.
 */
module Permissions {
  import opened Common

  type Flags = set<nat>

  const ADMINISTRATOR: nat := 3
  const VIEW_CHANNEL: nat := 10
  const READ_MESSAGE_HISTORY: nat := 16

  /** Every defined permission: bits 0 to 52 without 47. */
  const ALL: Flags := set b: nat {:trigger Defined(b)} | b <= 52 && Defined(b)

  predicate Defined(b: nat) { b <= 52 && b != 47 }

  /** What everyone has in a guild without an @everyone role. */
  const DEFAULT: Flags :=
    {0, 6, 10, 11, 12, 14, 15, 16, 17, 18, 20, 21, 25, 26, 31, 37, 38, 39, 43, 44, 46, 49, 50}

  datatype Role = Role(id: nat, permissions: Flags)
  datatype Member = Member(id: nat, roles: seq<Role>, timedOut: bool)
  datatype Guild = Guild(id: nat, ownerId: nat, everyone: Option<Flags>)
  datatype Overwrite = Overwrite(id: nat, allow: Flags, deny: Flags)

  // ---- Taking flags away ---------------------------------------------------

  /** Bit `b` is set in the complement of `o`. */
  predicate Kept(o: Flags, b: nat) {
    && b !in o
    && (b < 53 || (exists c :: c in o && c > b) || (b > 53 && forall c: nat | c < b :: c in o))
  }

  /** `p & ~o`. */
  function Remove(p: Flags, o: Flags): Flags {
    set b | b in p && Kept(o, b)
  }

  function Pow2(n: nat): nat {
    if n == 0 then 1 else 2 * Pow2(n - 1)
  }

  /** The number with the bits of `o` below `n`. */
  function Value(o: Flags, n: nat): nat {
    if n == 0 then 0 else Value(o, n - 1) + if n - 1 in o then Pow2(n - 1) else 0
  }

  function BitLength(x: nat): nat {
    if x == 0 then 0 else 1 + BitLength(x / 2)
  }

  /** How wide a mask `enum.IntFlag` of Python 3.12 takes to complement the number `v`; 53 bits are defined. */
  function Width(v: nat): nat {
    if v < Pow2(53) then 53 else BitLength(v + 1)
  }

  function Mask(o: Flags, width: nat): Flags {
    set b: nat | b < width && b !in o
  }

  lemma {:induction false} BitLengthBounds(x: nat)
    requires x > 0
    ensures BitLength(x) > 0 && Pow2(BitLength(x) - 1) <= x < Pow2(BitLength(x))
  {
    if x > 1 {
      BitLengthBounds(x / 2);
    } else {
      assert BitLength(0) == 0 && Pow2(1) == 2 * Pow2(0);
    }
  }

  lemma {:induction false} PowGrows(a: nat, b: nat)
    requires a <= b
    ensures Pow2(a) <= Pow2(b) && (a < b ==> 2 * Pow2(a) <= Pow2(b))
    decreases b
  {
    if a < b {
      PowGrows(a, b - 1);
    }
  }

  /** A set and its complement below `n` add up to all ones. */
  lemma {:induction false} MaskValue(o: Flags, n: nat, width: nat)
    requires n <= width
    ensures Value(o, n) + Value(Mask(o, width), n) == Pow2(n) - 1
  {
    if n > 0 {
      MaskValue(o, n - 1, width);
    }
  }

  /** Bits above `m` are not there, so they add nothing. */
  lemma {:induction false} ValueStops(o: Flags, m: nat, n: nat)
    requires m <= n && forall c | c in o :: c < m
    ensures Value(o, n) == Value(o, m)
    decreases n
  {
    if m < n {
      ValueStops(o, m, n - 1);
    }
  }

  lemma {:induction false} ValueAtLeast(o: Flags, n: nat, c: nat)
    requires c in o && c < n
    ensures Value(o, n) >= Pow2(c)
  {
    if c < n - 1 {
      ValueAtLeast(o, n - 1, c);
    }
  }

  lemma ValueBelow(o: Flags, n: nat)
    ensures Value(o, n) < Pow2(n)
  {
    MaskValue(o, n, n);
  }

  /** With no bit at or above `b`, the successor of the number reaches 2^b only if all lower bits are set. */
  lemma NextPower(o: Flags, b: nat)
    ensures Value(o, b) + 1 >= Pow2(b) <==> forall c: nat | c < b :: c in o
  {
    var gaps := Mask(o, b);
    MaskValue(o, b, b);
    if forall c: nat | c < b :: c in o {
      assert gaps == {};
      EmptyValue(b);
    } else {
      var c: nat :| c < b && c !in o;
      ValueAtLeast(gaps, b, c);
      PowGrows(0, c);
    }
  }

  lemma {:induction false} EmptyValue(n: nat)
    ensures Value({}, n) == 0
  {
    if n > 0 {
      EmptyValue(n - 1);
    }
  }

  lemma LowerValue(o: Flags, b: nat, n: nat)
    requires b !in o && (forall c | c in o :: c < n) && !(exists c :: c in o && c > b)
    ensures Value(o, n) == Value(o, b)
  {
    forall c | c in o
      ensures c < b
    {
      assert c <= b;
    }
    if b <= n {
      ValueStops(o, b, n);
    } else {
      ValueStops(o, n, b);
    }
  }

  /** A bit outside `o` lies below the width exactly when the set says so. */
  lemma WidthReaches(o: Flags, n: nat, b: nat)
    requires (forall c | c in o :: c < n) && b !in o
    ensures b < Width(Value(o, n)) <==> Kept(o, b)
  {
    var v := Value(o, n);
    BitLengthBounds(v + 1);
    if b < 53 {
      if v >= Pow2(53) && BitLength(v + 1) <= b {
        PowGrows(BitLength(v + 1), 53);
      }
    } else if c :| c in o && c > b {
      ValueAtLeast(o, n, c);
      PowGrows(53, c);
      PowGrows(b + 1, c);
      if BitLength(v + 1) <= b {
        PowGrows(BitLength(v + 1), b + 1);
      }
    } else {
      LowerValue(o, b, n);
      NextPower(o, b);
      ValueBelow(o, b);
      AtTop(v, b);
    }
  }

  lemma AtTop(v: nat, b: nat)
    requires b >= 53 && v < Pow2(b)
    ensures b < Width(v) <==> b > 53 && v + 1 >= Pow2(b)
  {
    BitLengthBounds(v + 1);
    var w := BitLength(v + 1);
    PowGrows(53, b);
    if w <= b {
      PowGrows(w, b);
    } else {
      PowGrows(b, w - 1);
    }
    if b > 53 {
      PowGrows(53, b);
      PowGrows(0, 53);
    }
  }

  /**
   The bits that survive are those of the number Python computes: a power of two, wide enough for the
   defined permissions and for `o`, minus one, minus the number `o`.
   */
  lemma KeptIsMask(o: Flags, n: nat)
    requires forall c | c in o :: c < n
    ensures var width := Width(Value(o, n));
            && (forall b: nat :: Kept(o, b) <==> b in Mask(o, width))
            && Value(Mask(o, width), width) == Pow2(width) - 1 - Value(o, n)
  {
    var width := Width(Value(o, n));
    forall b: nat
      ensures Kept(o, b) <==> b in Mask(o, width)
    {
      if b !in o {
        WidthReaches(o, n, b);
      }
    }
    MaskValue(o, width, width);
    forall c | c in o
      ensures c < width
    {
      WidthCovers(o, n, c);
    }
    if width <= n {
      ValueStops(o, width, n);
    } else {
      ValueStops(o, n, width);
    }
  }

  lemma WidthCovers(o: Flags, n: nat, c: nat)
    requires c in o && c < n
    ensures c < Width(Value(o, n))
  {
    var v := Value(o, n);
    ValueAtLeast(o, n, c);
    BitLengthBounds(v + 1);
    if v < Pow2(53) {
      if c >= 53 {
        PowGrows(53, c);
      }
    } else if BitLength(v + 1) <= c {
      PowGrows(BitLength(v + 1), c);
    }
  }

  // ---- The calculator ------------------------------------------------------

  method ComputeBase(member: Member, guild: Guild) returns (permissions: Flags)
    ensures forall b: nat :: b in permissions <==> BaseBit(member, guild, b)
  {
    if guild.ownerId == member.id {
      return ALL;
    }
    permissions := if guild.everyone.Some? then guild.everyone.value else DEFAULT;
    for i := 0 to |member.roles|
      invariant forall b: nat :: b in permissions <==>
                  InEveryone(guild, b) || exists k :: 0 <= k < i && b in member.roles[k].permissions
    {
      permissions := permissions + member.roles[i].permissions;
    }
    assert forall b: nat :: b in permissions <==> GrantedBit(member, guild, b);
    if ADMINISTRATOR in permissions {
      return ALL;
    }
    if member.timedOut {
      permissions := {};
      permissions := permissions + {VIEW_CHANNEL};
      permissions := permissions + {READ_MESSAGE_HISTORY};
    }
  }

  /** Later entries for the same id replace earlier ones. */
  method NormalizeOverwrites(list: seq<Overwrite>) returns (m: map<nat, Overwrite>)
    ensures forall id: nat :: Find(m, id) == LastFor(list, id)
  {
    m := map[];
    for i := 0 to |list|
      invariant forall id: nat :: Find(m, id) == LastFor(list[..i], id)
    {
      assert list[..i + 1][..i] == list[..i];
      m := m[list[i].id := list[i]];
    }
    assert list[..|list|] == list;
  }

  function Find(m: map<nat, Overwrite>, id: nat): Option<Overwrite> {
    if id in m then Some(m[id]) else None
  }

  function LastFor(list: seq<Overwrite>, id: nat): Option<Overwrite> {
    if list == [] then None
    else if list[|list| - 1].id == id then Some(list[|list| - 1])
    else LastFor(list[..|list| - 1], id)
  }

  method ComputeOverwrites(base: Flags, member: Member, list: seq<Overwrite>, guildId: nat)
    returns (permissions: Flags)
    ensures ADMINISTRATOR in base ==> permissions == ALL
    ensures ADMINISTRATOR !in base ==>
              forall b: nat :: b in permissions <==> LayeredBit(b in base, member, list, guildId, b)
  {
    if ADMINISTRATOR in base {
      return ALL;
    }
    var overwrites := NormalizeOverwrites(list);
    permissions := Apply(base, Find(overwrites, guildId));
    assert Find(overwrites, guildId) == LastFor(list, guildId);
    var roleAllow, roleDeny := {}, {};
    for i := 0 to |member.roles|
      invariant forall b: nat :: b in roleAllow <==> exists k :: 0 <= k < i && Allows(list, member.roles[k].id, b)
      invariant forall b: nat :: b in roleDeny <==> exists k :: 0 <= k < i && Denies(list, member.roles[k].id, b)
    {
      var o := Find(overwrites, member.roles[i].id);
      assert o == LastFor(list, member.roles[i].id);
      if o.Some? {
        roleAllow := roleAllow + o.value.allow;
        roleDeny := roleDeny + o.value.deny;
      }
    }
    assert roleDeny == RoleDeny(member.roles, list) by {
      assert forall b: nat :: b in roleDeny <==> b in RoleDeny(member.roles, list);
    }
    permissions := Remove(permissions, roleDeny);
    permissions := permissions + roleAllow;
    assert Find(overwrites, member.id) == LastFor(list, member.id);
    permissions := Apply(permissions, Find(overwrites, member.id));
  }

  function Apply(permissions: Flags, o: Option<Overwrite>): Flags {
    if o.Some? then Remove(permissions, o.value.deny) + o.value.allow else permissions
  }

  /** None stands for the error raised when no guild is known. */
  method ComputeEffective(member: Member, list: seq<Overwrite>, guild: Option<Guild>)
    returns (permissions: Option<Flags>)
    ensures permissions.None? <==> guild.None?
    ensures guild.Some? ==> forall b: nat :: b in permissions.value <==> EffectiveBit(member, list, guild.value, b)
  {
    if guild.None? {
      return None;
    }
    var base := ComputeBase(member, guild.value);
    var final := ComputeOverwrites(base, member, list, guild.value.id);
    permissions := Some(final);
  }

  /** `check_permission`; None where the source raises. */
  method CheckPermission(member: Member, list: seq<Overwrite>, required: Flags, guild: Option<Guild>)
    returns (ok: Option<bool>)
    ensures ok.None? <==> guild.None?
    ensures guild.Some? ==>
              (ok.value <==> forall b: nat | b in required :: EffectiveBit(member, list, guild.value, b))
  {
    var effective := ComputeEffective(member, list, guild);
    ok := if effective.None? then None else Some(required <= effective.value);
  }

  // ---- The layered formula, bit by bit -------------------------------------

  ghost predicate InEveryone(guild: Guild, b: nat) {
    b in (if guild.everyone.Some? then guild.everyone.value else DEFAULT)
  }

  /** @everyone or one of the member's roles grants the bit. */
  ghost predicate GrantedBit(member: Member, guild: Guild, b: nat) {
    InEveryone(guild, b) || exists role :: role in member.roles && b in role.permissions
  }

  ghost predicate Unlimited(member: Member, guild: Guild) {
    guild.ownerId == member.id || GrantedBit(member, guild, ADMINISTRATOR)
  }

  ghost predicate BaseBit(member: Member, guild: Guild, b: nat) {
    if Unlimited(member, guild) then b in ALL
    else if member.timedOut then b == VIEW_CHANNEL || b == READ_MESSAGE_HISTORY
    else GrantedBit(member, guild, b)
  }

  ghost predicate Allows(list: seq<Overwrite>, id: nat, b: nat) {
    LastFor(list, id).Some? && b in LastFor(list, id).value.allow
  }

  ghost predicate Denies(list: seq<Overwrite>, id: nat, b: nat) {
    LastFor(list, id).Some? && b in LastFor(list, id).value.deny
  }

  /** All that the overwrites of a member's roles deny. */
  ghost function RoleDeny(roles: seq<Role>, list: seq<Overwrite>): (deny: Flags)
    ensures forall b: nat :: b in deny <==> exists k :: 0 <= k < |roles| && Denies(list, roles[k].id, b)
  {
    if roles == [] then {}
    else
      var last, front := roles[|roles| - 1], RoleDeny(roles[..|roles| - 1], list);
      if LastFor(list, last.id).Some? then front + LastFor(list, last.id).value.deny else front
  }

  /** The overwrite of `id`, if there is one, does not take the bit away. */
  ghost predicate Spares(list: seq<Overwrite>, id: nat, b: nat) {
    LastFor(list, id).Some? ==> Kept(LastFor(list, id).value.deny, b)
  }

  ghost predicate RoleAllows(roles: seq<Role>, list: seq<Overwrite>, b: nat) {
    exists role :: role in roles && Allows(list, role.id, b)
  }

  ghost predicate RoleDenies(roles: seq<Role>, list: seq<Overwrite>, b: nat) {
    exists role :: role in roles && Denies(list, role.id, b)
  }

  /** What the calculator makes of one bit: in each layer an allowed bit is set, any other has to be spared. */
  ghost predicate LayeredBit(base: bool, member: Member, list: seq<Overwrite>, guildId: nat, b: nat) {
    var everyone := Allows(list, guildId, b) || (base && Spares(list, guildId, b));
    var roles := RoleAllows(member.roles, list, b) || (everyone && Kept(RoleDeny(member.roles, list), b));
    Allows(list, member.id, b) || (roles && Spares(list, member.id, b))
  }

  ghost predicate EffectiveBit(member: Member, list: seq<Overwrite>, guild: Guild, b: nat) {
    if Unlimited(member, guild) then b in ALL
    else LayeredBit(BaseBit(member, guild, b), member, list, guild.id, b)
  }

  // ---- The documented formula ----------------------------------------------

  /** One layer of overwrites: allow wins over deny, deny over what is below. */
  predicate Over(below: bool, deny: bool, allow: bool) {
    allow || (below && !deny)
  }

  ghost predicate PlainEveryone(base: bool, list: seq<Overwrite>, guildId: nat, b: nat) {
    Over(base, Denies(list, guildId, b), Allows(list, guildId, b))
  }

  ghost predicate PlainRoles(base: bool, member: Member, list: seq<Overwrite>, guildId: nat, b: nat) {
    Over(PlainEveryone(base, list, guildId, b), RoleDenies(member.roles, list, b), RoleAllows(member.roles, list, b))
  }

  /** Member over the union of roles over everyone over base. */
  ghost predicate PlainBit(base: bool, member: Member, list: seq<Overwrite>, guildId: nat, b: nat) {
    Over(PlainRoles(base, member, list, guildId, b), Denies(list, member.id, b), Allows(list, member.id, b))
  }

  ghost predicate PlainEffective(member: Member, list: seq<Overwrite>, guild: Guild, b: nat) {
    if Unlimited(member, guild) then b in ALL
    else PlainBit(BaseBit(member, guild, b), member, list, guild.id, b)
  }

  /** Taking the flags of `o` away takes the bit too, although `o` does not name it. */
  ghost predicate Drops(o: Flags, b: nat) {
    b !in o && !Kept(o, b)
  }

  ghost predicate DropsFor(list: seq<Overwrite>, id: nat, b: nat) {
    LastFor(list, id).Some? && Drops(LastFor(list, id).value.deny, b)
  }

  /** A layer drops the bit, and no layer from there on allows or denies it. */
  ghost predicate Lost(base: bool, member: Member, list: seq<Overwrite>, guildId: nat, b: nat) {
    var everyone := !Allows(list, guildId, b) && base && DropsFor(list, guildId, b);
    var roles := !RoleAllows(member.roles, list, b) && !RoleDenies(member.roles, list, b)
                 && (everyone || (PlainEveryone(base, list, guildId, b) && Drops(RoleDeny(member.roles, list), b)));
    !Allows(list, member.id, b) && !Denies(list, member.id, b)
    && (roles || (PlainRoles(base, member, list, guildId, b) && DropsFor(list, member.id, b)))
  }

  lemma RoleDenyBit(roles: seq<Role>, list: seq<Overwrite>, b: nat)
    ensures b in RoleDeny(roles, list) <==> RoleDenies(roles, list, b)
  {
    if RoleDenies(roles, list, b) {
      var role :| role in roles && Denies(list, role.id, b);
      var k :| 0 <= k < |roles| && roles[k] == role;
    }
  }

  /** Every bit, defined or not, follows the documented formula exactly unless a layer drops it. */
  lemma LayeredUnlessLost(m: Member, list: seq<Overwrite>, guild: Guild, b: nat)
    ensures EffectiveBit(m, list, guild, b) == PlainEffective(m, list, guild, b)
       <==> Unlimited(m, guild) || !Lost(BaseBit(m, guild, b), m, list, guild.id, b)
  {
    RoleDenyBit(m.roles, list, b);
  }

  /** Every bit up to 52, the highest that names a permission, follows the documented formula. */
  lemma DefinedBitsAreLayered(m: Member, list: seq<Overwrite>, guild: Guild, b: nat)
    requires b <= 52
    ensures EffectiveBit(m, list, guild, b) == PlainEffective(m, list, guild, b)
  {
    LayeredUnlessLost(m, list, guild, b);
  }

  /** In a channel without overwrites exactly the base bits up to 52 are left. */
  lemma NoOverwrites(m: Member, guild: Guild, b: nat)
    ensures EffectiveBit(m, [], guild, b) <==> BaseBit(m, guild, b) && b <= 52
  {
    assert RoleDeny(m.roles, []) == {} by {
      assert forall c: nat :: c !in RoleDeny(m.roles, []);
    }
  }

  /** A role that grants bit 60 does not help: the bit is gone even where nothing is denied. */
  lemma Bit60IsLost()
    ensures var m, guild := Member(1, [Role(2, {60})], false), Guild(7, 9, Some({}));
            && GrantedBit(m, guild, 60) && PlainEffective(m, [], guild, 60)
            && !EffectiveBit(m, [], guild, 60)
  {
    var m, guild := Member(1, [Role(2, {60})], false), Guild(7, 9, Some({}));
    assert Role(2, {60}) in m.roles;
    PlainWithoutOverwrites(m, guild, 60);
    NoOverwrites(m, guild, 60);
  }

  lemma PlainWithoutOverwrites(m: Member, guild: Guild, b: nat)
    ensures PlainEffective(m, [], guild, b) <==> BaseBit(m, guild, b)
  {
  }

  // ---- What follows --------------------------------------------------------

  /** Neither the order nor the repetition of a member's roles matters. */
  lemma RoleOrderIsIrrelevant(m: Member, roles: seq<Role>, list: seq<Overwrite>, guild: Guild, b: nat)
    requires forall role :: role in m.roles <==> role in roles
    ensures EffectiveBit(m, list, guild, b) == EffectiveBit(m.(roles := roles), list, guild, b)
  {
    var m' := m.(roles := roles);
    assert forall bit: nat :: GrantedBit(m, guild, bit) == GrantedBit(m', guild, bit);
    assert Unlimited(m, guild) == Unlimited(m', guild);
    assert RoleDeny(m.roles, list) == RoleDeny(roles, list) by {
      forall bit: nat
        ensures bit in RoleDeny(m.roles, list) <==> bit in RoleDeny(roles, list)
      {
        RoleDenyBit(m.roles, list, bit);
        RoleDenyBit(roles, list, bit);
      }
    }
  }

  /** The owner, or whoever @everyone or a role makes an administrator. */
  ghost predicate Privileged(m: Member, guild: Guild) {
    || m.id == guild.ownerId
    || 3 in guild.everyone.GetOr(DEFAULT)
    || exists role :: role in m.roles && 3 in role.permissions
  }

  /** Owners and administrators have exactly the defined permissions, whatever the overwrites. */
  lemma PrivilegedPass(m: Member, list: seq<Overwrite>, guild: Guild, b: nat)
    requires Privileged(m, guild)
    ensures EffectiveBit(m, list, guild, b) <==> b <= 52 && b != 47
  {
    if m.id != guild.ownerId {
      assert GrantedBit(m, guild, 3);
    }
    assert Defined(b) <==> b <= 52 && b != 47;
  }

  /** So they pass every check on defined permissions. */
  lemma UnlimitedPasses(m: Member, list: seq<Overwrite>, guild: Guild, required: Flags)
    requires Privileged(m, guild) && forall b | b in required :: b <= 52 && b != 47
    ensures forall b | b in required :: EffectiveBit(m, list, guild, b)
  {
    forall b | b in required
      ensures EffectiveBit(m, list, guild, b)
    {
      PrivilegedPass(m, list, guild, b);
    }
  }

  /** What anybody else has before overwrites: two bits when timed out, else the union of all grants. */
  ghost predicate Granted(m: Member, guild: Guild, b: nat) {
    if m.timedOut then b == 10 || b == 16
    else b in guild.everyone.GetOr(DEFAULT) || exists role :: role in m.roles && b in role.permissions
  }

  /**
   For anybody else and any bit up to 52 the first of these decides: the member's overwrite allows it, denies
   it, some role's allows it, some role's denies it, @everyone's allows it, denies it, and at last the grants.
   */
  lemma FirstDecides(m: Member, list: seq<Overwrite>, guild: Guild, b: nat)
    requires !Privileged(m, guild) && b <= 52
    ensures EffectiveBit(m, list, guild, b) <==>
            if Allows(list, m.id, b) then true
            else if Denies(list, m.id, b) then false
            else if exists role :: role in m.roles && Allows(list, role.id, b) then true
            else if exists role :: role in m.roles && Denies(list, role.id, b) then false
            else if Allows(list, guild.id, b) then true
            else if Denies(list, guild.id, b) then false
            else Granted(m, guild, b)
  {
    DefinedBitsAreLayered(m, list, guild, b);
    assert !GrantedBit(m, guild, 3);
    assert BaseBit(m, guild, b) <==> Granted(m, guild, b);
  }

  /** The overwrite that counts for an id is the last one listed for it. */
  lemma {:induction false} LastCounts(list: seq<Overwrite>, k: nat)
    requires k < |list| && forall j | k < j < |list| :: list[j].id != list[k].id
    ensures LastFor(list, list[k].id) == Some(list[k])
  {
    if k < |list| - 1 {
      assert list[..|list| - 1][k] == list[k];
      LastCounts(list[..|list| - 1], k);
    }
  }

  lemma {:induction false} NoneCounts(list: seq<Overwrite>, id: nat)
    requires forall j | 0 <= j < |list| :: list[j].id != id
    ensures LastFor(list, id) == None
  {
    if list != [] {
      NoneCounts(list[..|list| - 1], id);
    }
  }

  /** A timed-out member starts from two permissions; only overwrites can add others. */
  lemma TimedOutNeedsAllow(m: Member, list: seq<Overwrite>, guild: Guild, b: nat)
    requires m.timedOut && !Privileged(m, guild) && b != 10 && b != 16
    ensures EffectiveBit(m, list, guild, b) ==>
            Allows(list, guild.id, b) || Allows(list, m.id, b) || RoleAllows(m.roles, list, b)
  {
    assert !GrantedBit(m, guild, 3);
  }
}
