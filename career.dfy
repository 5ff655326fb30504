/**
 * The career engine: a profession is a ladder of levels, each holding
 * nodes; completing a node (once its prerequisites are completed) earns its
 * experience reward, and a level is left for the next one by order once its
 * required nodes are completed and enough experience is collected.
 */
module Career {
  import opened Text
  import opened Models

  type ProfessionId = int
  type LevelId = int
  type NodeId = int

  /** A ProfessionLevel row. */
  datatype CareerLevel = CareerLevel(id: LevelId, profession: ProfessionId, order: int, unlockXp: int, isPrestigeOnly: bool)

  /**
   * A ProfessionNode row; `profession` is the profession of its level, and
   * `requiredNodes` the `required_nodes` list of its unlock condition (empty
   * when the condition is missing, not a dictionary, or has no such key).
   */
  datatype CareerNode = CareerNode(
    id: NodeId, level: LevelId, profession: ProfessionId,
    order: int, isRequired: bool, xpReward: int, requiredNodes: seq<NodeId>)

  /** The status of a UserProfessionState row: `Initial` is what a new row holds before a level is assigned. */
  datatype StateStatus = Initial | Active | Finished

  /** A UserProfessionState row. */
  datatype CareerState = CareerState(currentLevel: Option<CareerLevel>, status: StateStatus, totalXp: int)

  /** A UserNodeProgress row. */
  datatype NodeProgress = NodeProgress(completed: bool, score: int)

  /** What `get_or_create` makes for a node: not completed, no score. */
  const NewProgress := NodeProgress(false, 0)

  /** The notifications the engine sends. */
  datatype Notice = LevelUp(user: UserId, profession: ProfessionId, level: LevelId) | ProfessionDone(user: UserId, profession: ProfessionId)

  // ---------------------------------------------------------------- levels

  /** A level of the profession above the bound, if there is one. */
  predicate Above(l: CareerLevel, pid: ProfessionId, bound: Option<int>)
  {
    l.profession == pid && (bound.None? || l.order > bound.value)
  }

  /**
   * `filter(profession=…, order__gt=…).order_by('order').first()`: the
   * level of the profession with the lowest order above the bound (all its
   * levels without a bound); among equal orders the first in the table.
   */
  function LowestAbove(levels: seq<CareerLevel>, pid: ProfessionId, bound: Option<int>): (r: Option<CareerLevel>)
    ensures r.Some? ==> r.value in levels && Above(r.value, pid, bound)
    ensures r.Some? ==> forall l :: l in levels && Above(l, pid, bound) ==> r.value.order <= l.order
    ensures r.None? <==> forall l :: l in levels ==> !Above(l, pid, bound)
  {
    if levels == [] then None
    else
      var rest := LowestAbove(levels[1..], pid, bound);
      assert forall l :: l in levels ==> l == levels[0] || l in levels[1..];
      if Above(levels[0], pid, bound) && (rest.None? || levels[0].order <= rest.value.order) then Some(levels[0])
      else rest
  }

  /** The state a new row gets: the lowest level and active, or no level when the profession has none. */
  function NewState(levels: seq<CareerLevel>, pid: ProfessionId): CareerState
  {
    var first := LowestAbove(levels, pid, None);
    if first.Some? then CareerState(first, Active, 0) else CareerState(None, Initial, 0)
  }

  /** A new state starts active at a lowest-order level of the profession, whenever the profession has a level. */
  lemma NewStateStartsAtBottom(levels: seq<CareerLevel>, pid: ProfessionId, l: CareerLevel)
    requires l in levels && l.profession == pid
    ensures NewState(levels, pid).status == Active
    ensures NewState(levels, pid).currentLevel.Some?
    ensures NewState(levels, pid).currentLevel.value.profession == pid
    ensures NewState(levels, pid).currentLevel.value.order <= l.order
  {
    assert Above(l, pid, None);
  }

  // ---------------------------------------------------------------- nodes

  /** Whether the user holds a completed progress row for the node. */
  predicate NodeDone(progress: map<(UserId, NodeId), NodeProgress>, uid: UserId, nid: NodeId)
  {
    (uid, nid) in progress && progress[(uid, nid)].completed
  }

  /** `node` may be completed: every required node before it in its level, and every node its condition lists, is completed. */
  predicate Unlockable(progress: map<(UserId, NodeId), NodeProgress>, uid: UserId, node: CareerNode, nodes: seq<CareerNode>)
  {
    (forall k :: 0 <= k < |nodes| && nodes[k].level == node.level && nodes[k].order < node.order && nodes[k].isRequired ==>
       NodeDone(progress, uid, nodes[k].id))
    && (forall k :: 0 <= k < |node.requiredNodes| ==> NodeDone(progress, uid, node.requiredNodes[k]))
  }

  /** Every required node of the level is completed. */
  predicate LevelDone(progress: map<(UserId, NodeId), NodeProgress>, uid: UserId, level: LevelId, nodes: seq<CareerNode>)
  {
    forall k :: 0 <= k < |nodes| && nodes[k].level == level && nodes[k].isRequired ==> NodeDone(progress, uid, nodes[k].id)
  }

  /** A node's reward: 1.2 times as much, truncated, for a prestige user. */
  function Reward(xpReward: int, prestige: bool): (r: int)
    ensures !prestige ==> r == xpReward
    ensures prestige && xpReward >= 0 ==> xpReward <= r <= xpReward + xpReward / 5
  {
    if prestige then Trunc(xpReward as real * 1.2) else xpReward
  }

  // ---------------------------------------------------------------- progression

  /**
   * What `complete_node` answers: `(progress, False)` for a node already
   * completed, the ValueError for a node still locked, `(progress, True)`
   * for a node completed now.
   */
  datatype Completion = AlreadyCompleted | Locked | NodeCompleted

  /** A state after `check_level_progression`, with the notification it sends. */
  datatype Progressed = Progressed(state: CareerState, notice: Option<Notice>)

  /**
   * `check_level_progression`: with every required node of the current
   * level completed and the level's experience collected, the state moves to
   * the next level by order, unless that level is for prestige users only
   * and the user is not one; at the top of the ladder the state is marked
   * finished, once.  The experience total never changes here.
   */
  function Progression(st: CareerState, uid: UserId, pid: ProfessionId, levels: seq<CareerLevel>, nodes: seq<CareerNode>,
                       progress: map<(UserId, NodeId), NodeProgress>, prestige: bool): (r: Progressed)
    ensures r.state.totalXp == st.totalXp
    ensures r.state.currentLevel != st.currentLevel ==>
      st.currentLevel.Some? && LevelDone(progress, uid, st.currentLevel.value.id, nodes)
      && st.totalXp >= st.currentLevel.value.unlockXp
      && r.state.currentLevel == LowestAbove(levels, pid, Some(st.currentLevel.value.order))
      && r.state.currentLevel.Some? && r.state.currentLevel.value.order > st.currentLevel.value.order
      && (prestige || !r.state.currentLevel.value.isPrestigeOnly)
    ensures r.state.status != st.status ==>
      r.state.status == Finished && st.currentLevel.Some?
      && LevelDone(progress, uid, st.currentLevel.value.id, nodes) && st.totalXp >= st.currentLevel.value.unlockXp
      && LowestAbove(levels, pid, Some(st.currentLevel.value.order)).None?
    ensures r.notice.Some? <==> r.state != st
    // Conversely, an earned move or finish happens, with its notification.
    ensures st.currentLevel.Some? && LevelDone(progress, uid, st.currentLevel.value.id, nodes)
            && st.totalXp >= st.currentLevel.value.unlockXp ==>
      var next := LowestAbove(levels, pid, Some(st.currentLevel.value.order));
      (next.Some? && (prestige || !next.value.isPrestigeOnly) ==>
         r.state.currentLevel == next && r.notice == Some(LevelUp(uid, pid, next.value.id)))
      && (next.None? && st.status != Finished ==>
         r.state.status == Finished && r.notice == Some(ProfessionDone(uid, pid)))
  {
    if st.currentLevel.None? then Progressed(st, None)
    else
      var cur := st.currentLevel.value;
      if LevelDone(progress, uid, cur.id, nodes) && st.totalXp >= cur.unlockXp then
        var next := LowestAbove(levels, pid, Some(cur.order));
        if next.Some? then
          if next.value.isPrestigeOnly && !prestige then Progressed(st, None)
          else Progressed(st.(currentLevel := next), Some(LevelUp(uid, pid, next.value.id)))
        else if st.status != Finished then Progressed(st.(status := Finished), Some(ProfessionDone(uid, pid)))
        else Progressed(st, None)
      else Progressed(st, None)
  }

  /** The move goes to the very next level: no level of the profession lies strictly between the old and the new one. */
  lemma ProgressionSkipsNoLevel(st: CareerState, uid: UserId, pid: ProfessionId, levels: seq<CareerLevel>, nodes: seq<CareerNode>,
                                progress: map<(UserId, NodeId), NodeProgress>, prestige: bool, l: CareerLevel)
    requires st.currentLevel.Some?
    requires Progression(st, uid, pid, levels, nodes, progress, prestige).state.currentLevel != st.currentLevel
    requires l in levels && l.profession == pid && l.order > st.currentLevel.value.order
    ensures l.order >= Progression(st, uid, pid, levels, nodes, progress, prestige).state.currentLevel.value.order
  {
    assert Above(l, pid, Some(st.currentLevel.value.order));
  }

  /** The completion notification is sent once: checking again right after it changes nothing and sends nothing. */
  lemma FinishedOnce(st: CareerState, uid: UserId, pid: ProfessionId, levels: seq<CareerLevel>, nodes: seq<CareerNode>,
                     progress: map<(UserId, NodeId), NodeProgress>, prestige: bool)
    requires Progression(st, uid, pid, levels, nodes, progress, prestige).notice == Some(ProfessionDone(uid, pid))
    ensures Progression(Progression(st, uid, pid, levels, nodes, progress, prestige).state, uid, pid, levels, nodes, progress, prestige)
      == Progressed(Progression(st, uid, pid, levels, nodes, progress, prestige).state, None)
  {
  }

  /** A user without prestige never reaches a prestige-only level by progressing. */
  lemma NoPrestigeLevelWithoutPrestige(st: CareerState, uid: UserId, pid: ProfessionId, levels: seq<CareerLevel>, nodes: seq<CareerNode>,
                                       progress: map<(UserId, NodeId), NodeProgress>)
    requires st.currentLevel.None? || !st.currentLevel.value.isPrestigeOnly
    ensures var r := Progression(st, uid, pid, levels, nodes, progress, false).state;
            r.currentLevel.None? || !r.currentLevel.value.isPrestigeOnly
  {
  }

  // ---------------------------------------------------------------- store

  /** The tables the engine reads and writes; levels and nodes are read-only inputs. */
  class CareerStore {
    var states: map<(UserId, ProfessionId), CareerState>
    var progress: map<(UserId, NodeId), NodeProgress>
    var users: map<UserId, UserRow>
    var notices: seq<Notice>

    constructor(users: map<UserId, UserRow>)
      ensures states == map[] && progress == map[] && this.users == users && notices == []
    {
      states := map[];
      progress := map[];
      this.users := users;
      notices := [];
    }

    /** The user's state for the profession, or what `get_or_create_state` would make. */
    function StateOf(uid: UserId, pid: ProfessionId, levels: seq<CareerLevel>): CareerState
      reads this
    {
      if (uid, pid) in states then states[(uid, pid)] else NewState(levels, pid)
    }

    /** `get_or_create_state`: the stored state, or a new one placed on the profession's lowest level. */
    method GetOrCreateState(uid: UserId, pid: ProfessionId, levels: seq<CareerLevel>) returns (st: CareerState)
      modifies this
      ensures st == old(StateOf(uid, pid, levels))
      ensures states == old(states)[(uid, pid) := st]
      ensures progress == old(progress) && users == old(users) && notices == old(notices)
    {
      if (uid, pid) in states {
        st := states[(uid, pid)];
      } else {
        st := CareerState(None, Initial, 0);
        var first := LowestAbove(levels, pid, None);
        if first.Some? {
          st := st.(currentLevel := first, status := Active);
        }
        states := states[(uid, pid) := st];
      }
    }

    /** `can_unlock_node`: the two loops of the source, proved to decide `Unlockable`. */
    method CanUnlockNode(uid: UserId, node: CareerNode, nodes: seq<CareerNode>) returns (ok: bool)
      ensures ok <==> Unlockable(progress, uid, node, nodes)
    {
      var i := 0;
      while i < |nodes|
        invariant 0 <= i <= |nodes|
        invariant forall k :: 0 <= k < i && nodes[k].level == node.level && nodes[k].order < node.order && nodes[k].isRequired ==>
          NodeDone(progress, uid, nodes[k].id)
      {
        var p := nodes[i];
        if p.level == node.level && p.order < node.order && p.isRequired {
          if !((uid, p.id) in progress && progress[(uid, p.id)].completed) {
            return false;
          }
        }
        i := i + 1;
      }
      var j := 0;
      while j < |node.requiredNodes|
        invariant 0 <= j <= |node.requiredNodes|
        invariant forall k :: 0 <= k < j ==> NodeDone(progress, uid, node.requiredNodes[k])
      {
        var n := node.requiredNodes[j];
        if !((uid, n) in progress && progress[(uid, n)].completed) {
          return false;
        }
        j := j + 1;
      }
      return true;
    }

    /** The loop of `check_level_progression` over the current level's required nodes. */
    method RequiredNodesDone(uid: UserId, level: LevelId, nodes: seq<CareerNode>) returns (all: bool)
      ensures all <==> LevelDone(progress, uid, level, nodes)
    {
      all := true;
      var i := 0;
      while i < |nodes|
        invariant 0 <= i <= |nodes|
        invariant all
        invariant forall k :: 0 <= k < i && nodes[k].level == level && nodes[k].isRequired ==> NodeDone(progress, uid, nodes[k].id)
      {
        var n := nodes[i];
        if n.level == level && n.isRequired && !((uid, n.id) in progress && progress[(uid, n.id)].completed) {
          all := false;
          break;
        }
        i := i + 1;
      }
    }

    /** `check_level_progression` on the stored state of the user for the profession. */
    method CheckLevelProgression(uid: UserId, pid: ProfessionId, levels: seq<CareerLevel>, nodes: seq<CareerNode>, prestige: bool)
      requires (uid, pid) in states
      modifies this
      ensures states == old(states)[(uid, pid) := Progression(old(states[(uid, pid)]), uid, pid, levels, nodes, progress, prestige).state]
      ensures notices == old(notices) + NoticeList(Progression(old(states[(uid, pid)]), uid, pid, levels, nodes, progress, prestige).notice)
      ensures progress == old(progress) && users == old(users)
    {
      var st := states[(uid, pid)];
      if st.currentLevel.None? {
        return;
      }
      var cur := st.currentLevel.value;
      var all := RequiredNodesDone(uid, cur.id, nodes);
      if all && st.totalXp >= cur.unlockXp {
        var next := LowestAbove(levels, pid, Some(cur.order));
        if next.Some? {
          if next.value.isPrestigeOnly && !prestige {
          } else {
            states := states[(uid, pid) := st.(currentLevel := next)];
            notices := notices + [LevelUp(uid, pid, next.value.id)];
          }
        } else if st.status != Finished {
          states := states[(uid, pid) := st.(status := Finished)];
          notices := notices + [ProfessionDone(uid, pid)];
        }
      }
    }

    /** The user's progress row for the node, or what `get_or_create` would make. */
    function ProgressOf(uid: UserId, nid: NodeId): NodeProgress
      reads this
    {
      if (uid, nid) in progress then progress[(uid, nid)] else NewProgress
    }

    /**
     * The award part of `complete_node`, on a node found unlockable: the node
     * is completed with the score, a positive reward is added to the state's
     * and the user's experience, and the level progression is checked.
     */
    method AwardNode(uid: UserId, node: CareerNode, score: int, levels: seq<CareerLevel>, nodes: seq<CareerNode>, prestige: bool)
      requires uid in users && (uid, node.profession) in states
      modifies this
      ensures progress == old(progress)[(uid, node.id) := NodeProgress(true, score)]
      ensures users == Credited(old(users), uid, Reward(node.xpReward, prestige))
      ensures states == old(states)[(uid, node.profession) := Progression(Awarded(old(states[(uid, node.profession)]), Reward(node.xpReward, prestige)),
                                                                         uid, node.profession, levels, nodes, progress, prestige).state]
      ensures notices == old(notices) + NoticeList(Progression(Awarded(old(states[(uid, node.profession)]), Reward(node.xpReward, prestige)),
                                                               uid, node.profession, levels, nodes, progress, prestige).notice)
    {
      progress := progress[(uid, node.id) := NodeProgress(true, score)];
      var reward := node.xpReward;
      if prestige {
        reward := Trunc(reward as real * 1.2);
      }
      if reward > 0 {
        var st := states[(uid, node.profession)];
        states := states[(uid, node.profession) := st.(totalXp := st.totalXp + reward)];
        var u := users[uid];
        users := users[uid := u.(xp := u.xp + reward)];
      }
      CheckLevelProgression(uid, node.profession, levels, nodes, prestige);
    }

    /**
     * `complete_node`: the state and the node's progress row are fetched or
     * created first; an already completed node changes nothing more; a node
     * whose prerequisites are not all completed raises, the two rows staying
     * created; otherwise the node is completed as `AwardNode` states.
     */
    method CompleteNode(uid: UserId, node: CareerNode, score: int, levels: seq<CareerLevel>, nodes: seq<CareerNode>, prestige: bool)
      returns (r: Completion)
      requires uid in users
      modifies this
      ensures r == AlreadyCompleted <==> old(ProgressOf(uid, node.id)).completed
      ensures r == Locked <==> !old(ProgressOf(uid, node.id)).completed && !Unlockable(old(progress), uid, node, nodes)
      ensures r != NodeCompleted ==>
        states == old(states)[(uid, node.profession) := old(StateOf(uid, node.profession, levels))]
        && progress == old(progress)[(uid, node.id) := old(ProgressOf(uid, node.id))]
        && users == old(users) && notices == old(notices)
      ensures r == NodeCompleted ==>
        progress == old(progress)[(uid, node.id) := NodeProgress(true, score)]
        && users == Credited(old(users), uid, Reward(node.xpReward, prestige))
        && states == old(states)[(uid, node.profession) := Progression(Awarded(old(StateOf(uid, node.profession, levels)), Reward(node.xpReward, prestige)),
                                                                       uid, node.profession, levels, nodes, progress, prestige).state]
        && notices == old(notices) + NoticeList(Progression(Awarded(old(StateOf(uid, node.profession, levels)), Reward(node.xpReward, prestige)),
                                                            uid, node.profession, levels, nodes, progress, prestige).notice)
    {
      var st := GetOrCreateState(uid, node.profession, levels);
      var p := ProgressOf(uid, node.id);
      progress := progress[(uid, node.id) := p];
      if p.completed {
        return AlreadyCompleted;
      }
      ghost var before := progress;
      var ok := CanUnlockNode(uid, node, nodes);
      UnlockableIgnoresNode(old(progress), before, uid, node, nodes);
      if !ok {
        return Locked;
      }
      AwardNode(uid, node, score, levels, nodes, prestige);
      r := NodeCompleted;
    }
  }

  /** The state after a reward: a positive one is added to the experience total. */
  function Awarded(st: CareerState, reward: int): (r: CareerState)
    ensures r.currentLevel == st.currentLevel && r.status == st.status
    ensures r.totalXp == st.totalXp + (if reward > 0 then reward else 0)
  {
    if reward > 0 then st.(totalXp := st.totalXp + reward) else st
  }

  /** The users after a reward: a positive one is added to the user's experience, the level column left as it is. */
  function Credited(users: map<UserId, UserRow>, uid: UserId, reward: int): (r: map<UserId, UserRow>)
    requires uid in users
    ensures r.Keys == users.Keys
    ensures forall v :: v in users && v != uid ==> r[v] == users[v]
    ensures r[uid].xp == users[uid].xp + (if reward > 0 then reward else 0)
    ensures r[uid].(xp := users[uid].xp) == users[uid]
  {
    if reward > 0 then users[uid := users[uid].(xp := users[uid].xp + reward)] else users
  }

  /** The notification sent, as a list. */
  function NoticeList(n: Option<Notice>): seq<Notice>
  {
    if n.Some? then [n.value] else []
  }

  /**
   * Creating a node's own, not completed, progress row does not change
   * whether the node is unlockable, unless the node lists itself among its
   * prerequisites, and then it stays locked either way.
   */
  lemma UnlockableIgnoresNode(p0: map<(UserId, NodeId), NodeProgress>, p1: map<(UserId, NodeId), NodeProgress>,
                              uid: UserId, node: CareerNode, nodes: seq<CareerNode>)
    requires (uid, node.id) in p1 && !p1[(uid, node.id)].completed
    requires forall key :: key != (uid, node.id) ==> (key in p0 <==> key in p1) && (key in p0 ==> p0[key] == p1[key])
    requires (uid, node.id) in p0 ==> p0[(uid, node.id)] == p1[(uid, node.id)]
    ensures Unlockable(p0, uid, node, nodes) <==> Unlockable(p1, uid, node, nodes)
  {
    forall nid ensures NodeDone(p0, uid, nid) <==> NodeDone(p1, uid, nid) {
      if nid != node.id {
        assert (uid, nid) != (uid, node.id);
      }
    }
  }

  /** A completed node stays completed: completing it again is refused without any change of experience. */
  lemma CompletedNodeStaysDone(p: NodeProgress)
    requires p.completed
    ensures p.(completed := true) == p
  {
  }

  /** Completing nodes keeps every user's level column consistent with the experience column, since experience only grows. */
  lemma RewardKeepsLevelConsistent(u: UserRow, reward: int)
    requires LevelConsistent(u) && reward > 0
    ensures LevelConsistent(u.(xp := u.xp + reward))
  {
    CalculateLevelMonotone(u.xp, u.xp + reward);
  }
}
