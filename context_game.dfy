// The game context's table logic, from src/context/context_game.c: player
// and projectile slot lookup with allocation, the choice of a particle slot,
// the three-line message log, the local player's firing and weapon rules,
// the key-array test and the player's display name.

module ContextGame {
  import opened GameUtil

  const MaxPlayers: nat := 128
  const MaxProjectiles: nat := 4096
  const MaxParticles: nat := 4096
  const MaxTextParticles: nat := 128
  const LogLines: nat := 3
  const LogLineMax: nat := 512
  const WeaponCount: nat := 8
  /** FLT_MAX, the scan's starting least life. */
  const FltMax: real := 340282346638528859811704183484516925440.0

  type Uint8 = x: int | 0 <= x < 0x100
  type Uint16 = x: int | 0 <= x < 0x1_0000
  type Weapon = w: int | 0 <= w < 8

  /** The initial_health, fire_cooldown and price columns of projectile_config,
      weapons 0 (pew) to 7 (repair). */
  const InitialHealth: seq<Uint8> := [20, 30, 80, 120, 255, 200, 120, 128]
  const FireCooldown: seq<int> := [20, 25, 50, 150, 180, 180, 180, 360]
  const Price: seq<int> := [-1, 2, 5, 10, 250, 10, 500, 250]

  // ---- projectile slots

  /** The fields of a projectile slot that the lookup reads and writes. */
  datatype Projectile = Projectile(pid: Uint16, health: Uint8, kind: Uint8)

  /** How projectile_with_pid_get ends: a live slot with the pid, a slot to
      initialise, or -1. */
  datatype PidScan = Live(index: nat) | Allocate(index: nat) | NoSlot

  /** The loop of projectile_with_pid_get from slot i, with the allocation
      candidate found so far (-1 for none); create is `ti >= 0`. A slot with
      the pid and no health is taken at once; another empty slot is only
      remembered, since a live slot with the pid may follow. */
  function Scan(s: seq<Projectile>, pid: Uint16, create: bool, i: nat, candidate: int): (r: PidScan)
    requires i <= |s| && candidate < i
    ensures (r.Live? || r.Allocate?) ==> r.index < |s|
    decreases |s| - i
  {
    if i == |s| then
      if create && candidate >= 0 then Allocate(candidate) else NoSlot
    else if s[i].pid == pid then
      if s[i].health > 0 then Live(i)
      else if create && candidate == -1 then Allocate(i)
      else Scan(s, pid, create, i + 1, candidate)
    else if create && candidate == -1 && s[i].health == 0 then Scan(s, pid, create, i + 1, i)
    else Scan(s, pid, create, i + 1, candidate)
  }

  /** Slot j is live and holds the pid. */
  predicate LiveWith(s: seq<Projectile>, pid: Uint16, j: int)
  {
    0 <= j < |s| && s[j].pid == pid && s[j].health > 0
  }

  /** What the scan knows after slots [0, i): no live slot with the pid, and
      the candidate is the first empty slot, if any and if creating. */
  ghost predicate Scanned(s: seq<Projectile>, pid: Uint16, create: bool, i: nat, candidate: int)
  {
    && i <= |s| && -1 <= candidate < i
    && (forall j :: 0 <= j < i ==> !LiveWith(s, pid, j))
    && (!create ==> candidate == -1)
    && (create && candidate == -1 ==> forall j :: 0 <= j < i ==> s[j].health != 0)
    && (candidate >= 0 ==>
          && candidate < i && s[candidate].health == 0 && s[candidate].pid != pid
          && forall j :: 0 <= j < candidate ==> s[j].health != 0)
  }

  lemma {:induction false} ScanOutcome(s: seq<Projectile>, pid: Uint16, create: bool, i: nat, candidate: int)
    requires Scanned(s, pid, create, i, candidate)
    ensures var r := Scan(s, pid, create, i, candidate);
      && (r.Live? ==>
            LiveWith(s, pid, r.index) && forall j :: 0 <= j < r.index ==> !LiveWith(s, pid, j))
      && (r.Allocate? ==>
            && create && r.index < |s| && s[r.index].health == 0
            && (forall j :: 0 <= j < r.index ==> s[j].health != 0 && !LiveWith(s, pid, j))
            && (s[r.index].pid != pid ==> forall j :: 0 <= j < |s| ==> !LiveWith(s, pid, j)))
      && (r.NoSlot? ==>
            && (forall j :: 0 <= j < |s| ==> !LiveWith(s, pid, j))
            && (create ==> forall j :: 0 <= j < |s| ==> s[j].health != 0))
    decreases |s| - i
  {
    if i < |s| {
      if s[i].pid == pid {
        if s[i].health == 0 && !(create && candidate == -1) {
          ScanOutcome(s, pid, create, i + 1, candidate);
        }
      } else if create && candidate == -1 && s[i].health == 0 {
        ScanOutcome(s, pid, create, i + 1, i);
      } else {
        ScanOutcome(s, pid, create, i + 1, candidate);
      }
    }
  }

  /** The lookup proper: a live slot found is the first live slot with the
      pid; a slot allocated is the first empty slot, ahead of any live slot
      with the pid; -1 means no live slot has the pid and, when creating,
      no slot is empty. */
  lemma PidLookup(s: seq<Projectile>, pid: Uint16, create: bool)
    ensures var r := Scan(s, pid, create, 0, -1);
      && (r.Live? ==>
            LiveWith(s, pid, r.index) && forall j :: 0 <= j < r.index ==> !LiveWith(s, pid, j))
      && (r.Allocate? ==>
            && create && r.index < |s| && s[r.index].health == 0
            && forall j :: 0 <= j < r.index ==> s[j].health != 0 && !LiveWith(s, pid, j))
      && (r.NoSlot? ==>
            && (forall j :: 0 <= j < |s| ==> !LiveWith(s, pid, j))
            && (create ==> forall j :: 0 <= j < |s| ==> s[j].health != 0))
  {
    ScanOutcome(s, pid, create, 0, -1);
  }

  lemma {:induction false} ScanReaches(s: seq<Projectile>, pid: Uint16, create: bool, i: nat, candidate: int, k: nat)
    requires i <= k && LiveWith(s, pid, k) && candidate < i
    requires forall j :: i <= j < k ==> s[j].pid != pid
    ensures Scan(s, pid, create, i, candidate) == Live(k)
    decreases k - i
  {
    if i < k {
      if create && candidate == -1 && s[i].health == 0 {
        ScanReaches(s, pid, create, i + 1, i, k);
      } else {
        ScanReaches(s, pid, create, i + 1, candidate, k);
      }
    }
  }

  /** A live slot holding the pid is returned when no slot before it has the pid. */
  lemma PidLookupFindsLive(s: seq<Projectile>, pid: Uint16, create: bool, k: nat)
    requires LiveWith(s, pid, k)
    requires forall j :: 0 <= j < k ==> s[j].pid != pid
    ensures Scan(s, pid, create, 0, -1) == Live(k)
  {
    ScanReaches(s, pid, create, 0, -1, k);
  }

  /** With a negative type nothing is ever allocated: the result is the first
      live slot with the pid, and -1 exactly when there is none. */
  lemma PidLookupWithoutCreate(s: seq<Projectile>, pid: Uint16)
    ensures !Scan(s, pid, false, 0, -1).Allocate?
    ensures Scan(s, pid, false, 0, -1) == NoSlot <==> forall j :: 0 <= j < |s| ==> !LiveWith(s, pid, j)
  {
    PidLookup(s, pid, false);
    if !Scan(s, pid, false, 0, -1).NoSlot? {
      assert LiveWith(s, pid, Scan(s, pid, false, 0, -1).index);
    }
  }

  /** projectile_initialize: pid, the type's initial health, and the type. */
  function Initialized(pid: Uint16, ti: Weapon): (p: Projectile)
    ensures p.pid == pid && p.health == InitialHealth[ti] > 0 && p.kind == ti
  {
    Projectile(pid, InitialHealth[ti], ti)
  }

  // ---- particle slots

  /** The scan of text_particle_find_new from slot i: the first dead slot,
      else the first slot of least life. */
  function LeastFrom(lives: seq<real>, i: nat, minLife: real, minIndex: int): int
    requires i <= |lives|
    decreases |lives| - i
  {
    if i == |lives| then minIndex
    else if lives[i] <= 0.0 then i
    else if lives[i] < minLife then LeastFrom(lives, i + 1, lives[i], i)
    else LeastFrom(lives, i + 1, minLife, minIndex)
  }

  /** The scan of particle_find_new as written: a smaller life records slot 0. */
  function LeastFromAsWritten(lives: seq<real>, i: nat, minLife: real, minIndex: int): int
    requires i <= |lives|
    decreases |lives| - i
  {
    if i == |lives| then minIndex
    else if lives[i] <= 0.0 then i
    else if lives[i] < minLife then LeastFromAsWritten(lives, i + 1, lives[i], 0)
    else LeastFromAsWritten(lives, i + 1, minLife, minIndex)
  }

  /** The slot after last_index when it is dead, else the scan. */
  function FindNew(lives: seq<real>, last: int): int
    requires |lives| > 0
  {
    var t := (last + 1) % |lives|;
    if lives[t] <= 0.0 then t else LeastFrom(lives, 0, FltMax, -1)
  }

  function FindNewAsWritten(lives: seq<real>, last: int): int
    requires |lives| > 0
  {
    var t := (last + 1) % |lives|;
    if lives[t] <= 0.0 then t else LeastFromAsWritten(lives, 0, FltMax, -1)
  }

  /** Every life below FLT_MAX: the pool holds no infinite life. */
  predicate Finite(lives: seq<real>)
  {
    forall j :: 0 <= j < |lives| ==> lives[j] < FltMax
  }

  lemma {:induction false} LeastFromIsLeast(lives: seq<real>, i: nat, minLife: real, minIndex: int)
    requires i <= |lives| && Finite(lives)
    requires forall j :: 0 <= j < i ==> lives[j] > 0.0 && minLife <= lives[j]
    requires -1 <= minIndex && (minIndex == -1 ==> i == 0 && minLife == FltMax)
    requires minIndex >= 0 ==> minIndex < i && lives[minIndex] == minLife
    ensures var r := LeastFrom(lives, i, minLife, minIndex);
      && (|lives| > 0 ==> 0 <= r < |lives|)
      && ((exists j :: i <= j < |lives| && lives[j] <= 0.0) ==> lives[r] <= 0.0)
      && ((forall j :: i <= j < |lives| ==> lives[j] > 0.0) ==>
            forall j :: 0 <= j < |lives| ==> lives[r] <= lives[j])
    decreases |lives| - i
  {
    if i < |lives| {
      if lives[i] <= 0.0 {
      } else if lives[i] < minLife {
        LeastFromIsLeast(lives, i + 1, lives[i], i);
      } else {
        LeastFromIsLeast(lives, i + 1, minLife, minIndex);
      }
    }
  }

  /** text_particle_find_new, and particle_find_new as intended: the slot is
      always in range, is dead when any slot is, and otherwise has the least
      life of all. */
  lemma FindNewChoosesWell(lives: seq<real>, last: int)
    requires |lives| > 0 && Finite(lives)
    ensures var r := FindNew(lives, last);
      && 0 <= r < |lives|
      && ((exists j :: 0 <= j < |lives| && lives[j] <= 0.0) ==> lives[r] <= 0.0)
      && ((forall j :: 0 <= j < |lives| ==> lives[j] > 0.0) ==>
            forall j :: 0 <= j < |lives| ==> lives[r] <= lives[j])
  {
    LeastFromIsLeast(lives, 0, FltMax, -1);
  }

  lemma {:induction false} LeastFromAsWrittenIsZero(lives: seq<real>, i: nat, minLife: real, minIndex: int)
    requires i <= |lives| && Finite(lives)
    requires forall j :: 0 <= j < |lives| ==> lives[j] > 0.0
    requires -1 <= minIndex && (minIndex == -1 ==> i == 0 && minLife == FltMax)
    requires minIndex >= 0 ==> minIndex == 0
    ensures |lives| > 0 ==> LeastFromAsWritten(lives, i, minLife, minIndex) == 0
    decreases |lives| - i
  {
    if i < |lives| {
      if lives[i] < minLife {
        LeastFromAsWrittenIsZero(lives, i + 1, lives[i], 0);
      } else {
        LeastFromAsWrittenIsZero(lives, i + 1, minLife, minIndex);
      }
    }
  }

  /** particle_find_new as written: with every particle alive and the slot
      after last_index alive, it returns slot 0 whatever the lives. */
  lemma FindNewAsWrittenPicksZero(lives: seq<real>, last: int)
    requires |lives| > 0 && Finite(lives)
    requires forall j :: 0 <= j < |lives| ==> lives[j] > 0.0
    ensures FindNewAsWritten(lives, last) == 0
  {
    LeastFromAsWrittenIsZero(lives, 0, FltMax, -1);
  }

  /** The particle finding: when every particle is alive and slot 1 has less
      life than slot 0, particle_find_new recycles slot 0, which is not the
      particle nearest its end; the intended scan picks one of least life. */
  lemma ParticleFindNewIgnoresLeast(lives: seq<real>, last: int)
    requires |lives| >= 2 && Finite(lives)
    requires forall j :: 0 <= j < |lives| ==> lives[j] > 0.0
    requires lives[1] < lives[0]
    ensures FindNewAsWritten(lives, last) == 0 && 0 <= FindNew(lives, last) < |lives|
    ensures lives[FindNew(lives, last)] <= lives[1] < lives[FindNewAsWritten(lives, last)]
  {
    FindNewAsWrittenPicksZero(lives, last);
    FindNewChoosesWell(lives, last);
  }

  // ---- the message log

  /** vsnprintf into LOG_LINE_MAX bytes: at most 511 characters are kept. */
  function Truncated(text: string): (t: string)
    ensures |t| < LogLineMax && |t| <= |text| && t == text[..|t|]
    ensures |text| < LogLineMax ==> t == text
  {
    if |text| < LogLineMax then text else text[..LogLineMax - 1]
  }

  /** log_advance_line: lines 1 and 2 move up, line 2 becomes empty. */
  function Advanced(lines: seq<string>): (r: seq<string>)
    requires |lines| == LogLines
    ensures |r| == LogLines && r[..2] == lines[1..] && r[2] == ""
  {
    [lines[1], lines[2], ""]
  }

  /** log_add_text as written: `lines[k] == 0` compares an array's address
      with null and never holds, so the log always advances and the message
      goes to the last line. */
  function AddedAsWritten(lines: seq<string>, text: string): seq<string>
    requires |lines| == LogLines
  {
    Advanced(lines)[2 := Truncated(text)]
  }

  /** log_add_text as evidently intended: the message goes to line 0 if it is
      empty, else to line 1 if it is empty, else the log advances and it goes
      to line 2. */
  function Added(lines: seq<string>, text: string): seq<string>
    requires |lines| == LogLines
  {
    if lines[0] == "" then lines[0 := Truncated(text)]
    else if lines[1] == "" then lines[1 := Truncated(text)]
    else Advanced(lines)[2 := Truncated(text)]
  }

  /** Three advances with no new message empty the log. */
  lemma AdvanceThriceClears(lines: seq<string>)
    requires |lines| == LogLines
    ensures Advanced(Advanced(Advanced(lines))) == ["", "", ""]
  {
  }

  /** The lines after adding each message in turn, as written. */
  function LogAfterAsWritten(lines: seq<string>, msgs: seq<string>): (r: seq<string>)
    requires |lines| == LogLines
    ensures |r| == LogLines
    decreases |msgs|
  {
    if |msgs| == 0 then lines
    else AddedAsWritten(LogAfterAsWritten(lines, msgs[..|msgs| - 1]), msgs[|msgs| - 1])
  }

  function TruncatedAll(msgs: seq<string>): (r: seq<string>)
    ensures |r| == |msgs|
    ensures forall k :: 0 <= k < |msgs| ==> r[k] == Truncated(msgs[k])
  {
    if |msgs| == 0 then [] else TruncatedAll(msgs[..|msgs| - 1]) + [Truncated(msgs[|msgs| - 1])]
  }

  /** As written the log is a window on the last three lines of the history:
      the old lines followed by every message. */
  lemma {:induction false} LogShowsLatest(lines: seq<string>, msgs: seq<string>)
    requires |lines| == LogLines
    ensures LogAfterAsWritten(lines, msgs) == (lines + TruncatedAll(msgs))[|msgs|..]
  {
    if |msgs| > 0 {
      var init := msgs[..|msgs| - 1];
      LogShowsLatest(lines, init);
      var h := lines + TruncatedAll(msgs);
      var g := lines + TruncatedAll(init);
      assert h == g + [Truncated(msgs[|msgs| - 1])];
      var w := LogAfterAsWritten(lines, init);
      assert w == g[|init|..];
      assert LogAfterAsWritten(lines, msgs) == [w[1], w[2], Truncated(msgs[|msgs| - 1])];
    }
  }

  /** The log finding: a message added to the empty log lands on the last
      line as written, and on the first line as intended. */
  lemma FirstMessageGoesLast()
    ensures AddedAsWritten(["", "", ""], "hello") == ["", "", "hello"]
    ensures Added(["", "", ""], "hello") == ["hello", "", ""]
  {
  }

  /** The intended log fills from the top: while line 0 or 1 is empty, no
      message is lost and the other lines stay where they are. */
  lemma AddedKeepsLines(lines: seq<string>, text: string)
    requires |lines| == LogLines && (lines[0] == "" || lines[1] == "")
    ensures var r := Added(lines, text);
      exists k :: 0 <= k < 2 && lines[k] == "" && r == lines[k := Truncated(text)]
        && forall j :: 0 <= j < k ==> lines[j] != ""
  {
    if lines[0] == "" {
      assert Added(lines, text) == lines[0 := Truncated(text)];
    } else {
      assert Added(lines, text) == lines[1 := Truncated(text)];
    }
  }

  // ---- firing and weapons

  /** The local player's score, fire_cooldown and active_weapon. */
  datatype Shooter = Shooter(score: Uint32, cooldown: int, weapon: Weapon)

  /** `cost == -1 || cost <= score`: the int price is compared with the uint32
      score as unsigned, and -1 means free. */
  predicate Affordable(w: Weapon, score: Uint32)
  {
    Price[w] == -1 || ToU32(Price[w]) <= score
  }

  /** player_local_update_firing: one jiffy counts the cooldown down; at zero
      with the fire key down and an affordable weapon, a positive price is
      paid and projectile_add adds the weapon's cooldown. */
  function Firing(s: Shooter, jiffy: bool, fireDown: bool): (Shooter, bool)
  {
    var cooldown := if jiffy && s.cooldown > 0 then s.cooldown - 1 else s.cooldown;
    if cooldown == 0 && fireDown && Affordable(s.weapon, s.score) then
      var score := if Price[s.weapon] > 0 then s.score - Price[s.weapon] else s.score;
      (Shooter(score, cooldown + FireCooldown[s.weapon], s.weapon), true)
    else
      (s.(cooldown := cooldown), false)
  }

  /** A shot needs a zero cooldown, the key and the price; the score drops by
      exactly the price, a free weapon costs nothing, and nothing else moves. */
  lemma FiringCharges(s: Shooter, jiffy: bool, fireDown: bool)
    ensures var (r, fired) := Firing(s, jiffy, fireDown);
      && (fired ==> fireDown && Affordable(s.weapon, s.score))
      && (fired ==> r.score == s.score - (if Price[s.weapon] == -1 then 0 else Price[s.weapon]))
      && (!fired ==> r.score == s.score)
      && r.weapon == s.weapon
      && (s.cooldown >= 0 ==> r.cooldown >= 0)
  {
  }

  /** After a shot the cooldown blocks the next call, jiffy or not. */
  lemma FiringStartsCooldown(s: Shooter, jiffy: bool, fireDown: bool, jiffy2: bool, fireDown2: bool)
    requires Firing(s, jiffy, fireDown).1
    ensures !Firing(Firing(s, jiffy, fireDown).0, jiffy2, fireDown2).1
  {
  }

  /** The weapon loop of player_local_update_weapon over keys '1' .. '1' + n - 1:
      the last key held wins. */
  function LastPressed(pressed: seq<bool>, n: nat, current: Weapon): (w: Weapon)
    requires n <= |pressed| <= WeaponCount
    ensures (exists k :: 0 <= k < n && pressed[k]) ==> w < n && pressed[w]
    ensures forall k :: w < k < n ==> !pressed[k]
    ensures (forall k :: 0 <= k < n ==> !pressed[k]) ==> w == current
  {
    if n == 0 then current
    else if pressed[n - 1] then n - 1
    else LastPressed(pressed, n - 1, current)
  }

  /** player_local_update_weapon: the last weapon key held, dropped back to
      weapon 0 when its price, as a uint32, exceeds the score. */
  function Selected(s: Shooter, pressed: seq<bool>): Shooter
    requires |pressed| == WeaponCount
  {
    var w := LastPressed(pressed, WeaponCount, s.weapon);
    s.(weapon := if ToU32(Price[w]) > s.score then 0 else w)
  }

  /** The selected weapon is always one the score pays for. */
  lemma SelectedIsAffordable(s: Shooter, pressed: seq<bool>)
    requires |pressed| == WeaponCount
    ensures Affordable(Selected(s, pressed).weapon, s.score)
  {
  }

  /** So once the cooldown is over, the fire key always fires the selected weapon. */
  lemma SelectedWeaponFires(s: Shooter, pressed: seq<bool>)
    requires |pressed| == WeaponCount && s.cooldown == 0
    ensures Firing(Selected(s, pressed), false, true).1
  {
    SelectedIsAffordable(s, pressed);
  }

  // ---- keys and names

  /** The keys of a zero-terminated key array, before its terminator. */
  function Listed(keys: seq<int>): (r: seq<int>)
    ensures |r| <= |keys| && r == keys[..|r|] && 0 !in r
    ensures |r| < |keys| ==> keys[|r|] == 0
    ensures 0 in keys ==> |r| < |keys|
  {
    if |keys| == 0 || keys[0] == 0 then [] else [keys[0]] + Listed(keys[1..])
  }

  /** player_name: the local player is "You" or "yourself"; another player
      is its name, or "A Player" when the name is empty. */
  function PlayerName(i: int, asObject: bool, name: string): (r: string)
    ensures |r| > 0
    ensures i == 0 ==> r == (if asObject then "yourself" else "You")
    ensures i != 0 ==> (name != "" ==> r == name) && (name == "" ==> r == "A Player")
  {
    if i == 0 then (if asObject then "yourself" else "You")
    else if |name| > 0 then name
    else "A Player"
  }
}

/** The global game arrays and the functions that scan and update them. */
module ContextGameObject {
  import opened GameUtil
  import opened ContextGame

  /** The loop of player_with_client_id_get: the first connected slot with
      the client id, else -1 and the first slot not connected (or -1). */
  method FindClient(connected: array<bool>, ids: array<Uint16>, cid: Uint16) returns (found: int, empty: int)
    requires connected.Length == ids.Length
    ensures -1 <= found < connected.Length
    ensures found >= 0 ==> connected[found] && ids[found] == cid
    ensures forall j :: 0 <= j < connected.Length && (found == -1 || j < found) ==> !(connected[j] && ids[j] == cid)
    ensures found == -1 ==> -1 <= empty < connected.Length
    ensures found == -1 && empty == -1 ==> forall j :: 0 <= j < connected.Length ==> connected[j]
    ensures found == -1 && empty >= 0 ==> !connected[empty] && forall j :: 0 <= j < empty ==> connected[j]
  {
    empty := -1;
    var i := 0;
    while i < connected.Length
      invariant 0 <= i <= connected.Length && -1 <= empty < i
      invariant forall j :: 0 <= j < i ==> !(connected[j] && ids[j] == cid)
      invariant empty == -1 ==> forall j :: 0 <= j < i ==> connected[j]
      invariant empty >= 0 ==> !connected[empty] && forall j :: 0 <= j < empty ==> connected[j]
    {
      if connected[i] {
        if ids[i] == cid {
          return i, empty;
        }
      } else if empty == -1 {
        empty := i;
      }
      i := i + 1;
    }
    found := -1;
  }

  /** game.player_connected and the client ids of game.player_id. */
  class Players {
    const connected: array<bool>
    const ids: array<Uint16>

    ghost predicate Valid()
      reads this
    {
      connected.Length == MaxPlayers && ids.Length == MaxPlayers
    }

    constructor ()
      ensures Valid() && fresh(connected) && fresh(ids)
      ensures forall j :: 0 <= j < MaxPlayers ==> !connected[j] && ids[j] == 0
    {
      connected := new bool[MaxPlayers](_ => false);
      ids := new Uint16[MaxPlayers](_ => 0);
    }

    /** player_with_client_id_get. The source asserts that a slot it allocates
        is not slot 0, so player 0 is connected and a slot is free. */
    method WithClientId(cid: Uint16, allowAllocate: bool) returns (slot: int, wasNew: bool)
      requires Valid()
      requires allowAllocate && (forall j :: 0 <= j < MaxPlayers ==> !(connected[j] && ids[j] == cid)) ==>
        connected[0] && exists j :: 1 <= j < MaxPlayers && !connected[j]
      modifies connected, ids
      ensures Valid()
      ensures -1 <= slot < MaxPlayers
      ensures slot >= 0 ==> connected[slot] && ids[slot] == cid
      ensures wasNew <==> allowAllocate && forall j :: 0 <= j < MaxPlayers ==> !(old(connected[j]) && old(ids[j]) == cid)
      ensures slot == -1 <==> !allowAllocate && forall j :: 0 <= j < MaxPlayers ==> !(old(connected[j]) && old(ids[j]) == cid)
      ensures !wasNew ==> connected[..] == old(connected[..]) && ids[..] == old(ids[..])
      ensures !wasNew && slot >= 0 ==> forall j :: 0 <= j < slot ==> !(old(connected[j]) && old(ids[j]) == cid)
      ensures wasNew ==> slot >= 1 && !old(connected[slot]) && forall j :: 0 <= j < slot ==> old(connected[j])
      ensures wasNew ==> connected[..] == old(connected[..])[slot := true] && ids[..] == old(ids[..])[slot := cid]
    {
      var found, empty := FindClient(connected, ids, cid);
      if found >= 0 {
        return found, false;
      }
      if !allowAllocate {
        return -1, false;
      }
      if empty == -1 {
        assert false;
      }
      assert empty >= 1;
      connected[empty] := true;
      ids[empty] := cid;
      slot, wasNew := empty, true;
    }
  }

  /** The result of the lookup: the slot, or -1. */
  function SlotOf(r: PidScan): int
  {
    match r
    case Live(k) => k
    case Allocate(k) => k
    case NoSlot => -1
  }

  /** The loop of projectile_with_pid_get. */
  method ScanSlots(slots: array<Projectile>, pid: Uint16, create: bool) returns (r: PidScan)
    ensures r == Scan(slots[..], pid, create, 0, -1)
  {
    ghost var s := slots[..];
    var candidate := -1;
    var i := 0;
    while i < slots.Length
      invariant 0 <= i <= slots.Length && -1 <= candidate < i
      invariant Scan(s, pid, create, 0, -1) == Scan(s, pid, create, i, candidate)
    {
      if pid == slots[i].pid {
        if slots[i].health > 0 {
          return Live(i);
        } else if create && candidate == -1 {
          return Allocate(i);
        }
      } else if create && candidate == -1 && slots[i].health == 0 {
        candidate := i;
      }
      i := i + 1;
    }
    r := if create && candidate >= 0 then Allocate(candidate) else NoSlot;
  }

  /** game.projectile: pid, health and type of each slot. */
  class Projectiles {
    const slots: array<Projectile>

    ghost predicate Valid()
      reads this
    {
      slots.Length == MaxProjectiles
    }

    constructor ()
      ensures Valid() && fresh(slots)
      ensures forall j :: 0 <= j < MaxProjectiles ==> slots[j] == Projectile(0, 0, 0)
    {
      slots := new Projectile[MaxProjectiles](_ => Projectile(0, 0, 0));
    }

    /** projectile_with_pid_get, with a negative type meaning "do not create";
        an allocated slot is set up by projectile_initialize. */
    method WithPid(pid: Uint16, ti: int) returns (slot: int)
      requires Valid() && ti < WeaponCount
      modifies slots
      ensures Valid()
      ensures slot == SlotOf(Scan(old(slots[..]), pid, ti >= 0, 0, -1))
      ensures ti >= 0 && Scan(old(slots[..]), pid, true, 0, -1).Allocate? ==>
        slots[..] == old(slots[..])[slot := Initialized(pid, ti)]
      ensures !(ti >= 0 && Scan(old(slots[..]), pid, true, 0, -1).Allocate?) ==> slots[..] == old(slots[..])
    {
      var r := ScanSlots(slots, pid, ti >= 0);
      slot := SlotOf(r);
      if ti >= 0 && r.Allocate? {
        Initialize(pid, slot, ti);
      }
    }

    /** projectile_initialize. */
    method Initialize(pid: Uint16, pi: nat, ti: Weapon)
      requires Valid() && pi < MaxProjectiles
      modifies slots
      ensures slots[..] == old(slots[..])[pi := Initialized(pid, ti)]
    {
      slots[pi] := Projectile(pid, InitialHealth[ti], ti);
    }
  }

  /** The scan of text_particle_find_new. */
  method Least(lives: array<real>) returns (r: int)
    ensures r == LeastFrom(lives[..], 0, FltMax, -1)
  {
    var minLife := FltMax;
    var minIndex := -1;
    var i := 0;
    while i < lives.Length
      invariant 0 <= i <= lives.Length
      invariant LeastFrom(lives[..], 0, FltMax, -1) == LeastFrom(lives[..], i, minLife, minIndex)
    {
      if lives[i] <= 0.0 {
        return i;
      }
      if lives[i] < minLife {
        minLife := lives[i];
        minIndex := i;
      }
      i := i + 1;
    }
    r := minIndex;
  }

  /** The scan of particle_find_new as written. */
  method LeastAsWritten(lives: array<real>) returns (r: int)
    ensures r == LeastFromAsWritten(lives[..], 0, FltMax, -1)
  {
    var minLife := FltMax;
    var minIndex := -1;
    var i := 0;
    while i < lives.Length
      invariant 0 <= i <= lives.Length
      invariant LeastFromAsWritten(lives[..], 0, FltMax, -1) == LeastFromAsWritten(lives[..], i, minLife, minIndex)
    {
      if lives[i] <= 0.0 {
        return i;
      }
      if lives[i] < minLife {
        minLife := lives[i];
        minIndex := 0;
      }
      i := i + 1;
    }
    r := minIndex;
  }

  /** The lives of game.particle or game.text_particle, and the finder's
      static last_index. */
  class ParticlePool {
    const life: array<real>
    var lastIndex: int

    ghost predicate Valid()
      reads this, life
    {
      life.Length > 0 && -1 <= lastIndex < life.Length && Finite(life[..])
    }

    /** A zeroed pool of MAX_PARTICLES or MAX_TEXT_PARTICLES slots. */
    constructor (size: nat)
      requires size > 0
      ensures Valid() && fresh(life) && life.Length == size && lastIndex == 0
      ensures forall j :: 0 <= j < size ==> life[j] == 0.0
    {
      life := new real[size](_ => 0.0);
      lastIndex := 0;
    }

    /** text_particle_find_new, which is also particle_find_new as intended. */
    method FindNew() returns (r: int)
      requires Valid()
      modifies this
      ensures Valid() && r == lastIndex
      ensures r == ContextGame.FindNew(life[..], old(lastIndex))
    {
      var test := (lastIndex + 1) % life.Length;
      if life[test] <= 0.0 {
        lastIndex := test;
        return test;
      }
      r := Least(life);
      FindNewChoosesWell(life[..], old(lastIndex));
      lastIndex := r;
    }

    /** particle_find_new as written. */
    method FindNewAsWritten() returns (r: int)
      requires Valid()
      modifies this
      ensures Valid() && r == lastIndex
      ensures r == ContextGame.FindNewAsWritten(life[..], old(lastIndex))
    {
      var test := (lastIndex + 1) % life.Length;
      if life[test] <= 0.0 {
        lastIndex := test;
        return test;
      }
      r := LeastAsWritten(life);
      if forall j :: 0 <= j < life.Length ==> life[j] > 0.0 {
        FindNewAsWrittenPicksZero(life[..], old(lastIndex));
      } else {
        LeastFromIsLeast(life[..], 0, FltMax, -1);
        AsWrittenFindsDead(life[..]);
      }
      lastIndex := r;
    }
  }

  /** With a dead slot present, the as-written scan stops at the first one, in range. */
  lemma AsWrittenFindsDead(lives: seq<real>)
    requires exists j :: 0 <= j < |lives| && lives[j] <= 0.0
    ensures 0 <= LeastFromAsWritten(lives, 0, FltMax, -1) < |lives|
  {
    var j :| 0 <= j < |lives| && lives[j] <= 0.0;
    AsWrittenStopsAtDead(lives, 0, FltMax, -1, j);
  }

  lemma {:induction false} AsWrittenStopsAtDead(lives: seq<real>, i: nat, minLife: real, minIndex: int, j: nat)
    requires i <= j < |lives| && lives[j] <= 0.0
    ensures i <= LeastFromAsWritten(lives, i, minLife, minIndex) <= j
    decreases j - i
  {
    if lives[i] > 0.0 {
      if lives[i] < minLife {
        AsWrittenStopsAtDead(lives, i + 1, lives[i], 0, j);
      } else {
        AsWrittenStopsAtDead(lives, i + 1, minLife, minIndex, j);
      }
    }
  }

  /** ui_log's lines and rebuild flag. */
  class Log {
    var lines: seq<string>
    var rebuild: bool

    ghost predicate Valid()
      reads this
    {
      |lines| == LogLines && forall k :: 0 <= k < LogLines ==> |lines[k]| < LogLineMax
    }

    constructor ()
      ensures Valid() && lines == ["", "", ""] && !rebuild
    {
      lines := ["", "", ""];
      rebuild := false;
    }

    /** log_advance_line. */
    method AdvanceLine()
      requires Valid()
      modifies this
      ensures Valid() && rebuild
      ensures lines == Advanced(old(lines))
    {
      lines := [lines[1], lines[2], ""];
      rebuild := true;
    }

    /** log_add_text as written, with the formatted message as text. */
    method AddTextAsWritten(text: string)
      requires Valid()
      modifies this
      ensures Valid() && rebuild
      ensures lines == AddedAsWritten(old(lines), text)
    {
      AdvanceLine();
      lines := lines[2 := Truncated(text)];
      rebuild := true;
    }

    /** log_add_text as intended: the first empty line of 0 and 1, else advance. */
    method AddText(text: string)
      requires Valid()
      modifies this
      ensures Valid() && rebuild
      ensures lines == Added(old(lines), text)
    {
      var target := 2;
      if lines[1] == "" {
        target := 1;
      }
      if lines[0] == "" {
        target := 0;
      }
      if target == 2 {
        AdvanceLine();
      }
      lines := lines[target := Truncated(text)];
      rebuild := true;
    }
  }

  /** The weapon-key loop of player_local_update_weapon; pressed[i] is
      glfwGetKey('1' + i). */
  method LastPressedKey(pressed: seq<bool>, current: Weapon) returns (w: Weapon)
    requires |pressed| == WeaponCount
    ensures w == LastPressed(pressed, WeaponCount, current)
  {
    w := current;
    var i := 0;
    while i < WeaponCount
      invariant 0 <= i <= WeaponCount && w == LastPressed(pressed, i, current)
    {
      if pressed[i] {
        w := i;
      }
      i := i + 1;
    }
  }

  /** key_down: some key of the zero-terminated array is held; `down` is the
      set of keys glfwGetKey reports held. */
  method KeyDown(keys: seq<int>, down: set<int>) returns (held: bool)
    requires 0 in keys
    ensures held <==> exists k :: k in Listed(keys) && k in down
  {
    var i := 0;
    while keys[i] != 0
      invariant 0 <= i <= |Listed(keys)| && keys[..i] == Listed(keys)[..i]
      invariant forall j :: 0 <= j < i ==> keys[j] !in down
      decreases |Listed(keys)| - i
    {
      if keys[i] in down {
        return true;
      }
      i := i + 1;
    }
    held := false;
  }

  /** The local player's score, fire_cooldown and active_weapon. */
  class LocalPlayer {
    var score: Uint32
    var fireCooldown: int
    var activeWeapon: Weapon

    ghost predicate Valid()
      reads this
    {
      fireCooldown >= 0
    }

    constructor ()
      ensures Valid() && State() == Shooter(0, 0, 0)
    {
      score, fireCooldown, activeWeapon := 0, 0, 0;
    }

    function State(): Shooter
      reads this
    {
      Shooter(score, fireCooldown, activeWeapon)
    }

    /** player_local_update_firing, with key_down(fire) as fireDown; of
        projectile_add only the cooldown is kept. */
    method UpdateFiring(jiffyElapsed: bool, fireDown: bool) returns (fired: bool)
      requires Valid()
      modifies this
      ensures Valid()
      ensures (State(), fired) == Firing(old(State()), jiffyElapsed, fireDown)
    {
      if jiffyElapsed && fireCooldown > 0 {
        fireCooldown := fireCooldown - 1;
      }
      fired := false;
      if fireCooldown == 0 && fireDown {
        var w := activeWeapon;
        var cost := Price[w];
        if cost == -1 || ToU32(cost) <= score {
          if cost > 0 {
            score := score - cost;
          }
          fireCooldown := fireCooldown + FireCooldown[w];
          fired := true;
        }
      }
    }

    /** player_local_update_weapon, with glfwGetKey('1' + i) as pressed[i]. */
    method UpdateWeapon(pressed: seq<bool>)
      requires Valid() && |pressed| == WeaponCount
      modifies this
      ensures Valid()
      ensures State() == Selected(old(State()), pressed)
    {
      activeWeapon := LastPressedKey(pressed, activeWeapon);
      if ToU32(Price[activeWeapon]) > score {
        activeWeapon := 0;
      }
    }
  }
}
