/** The shell's table of processes and jobs (sh.proc.c): palloc, pflush, pclrcurr, pgetcurr, the updates of pchild and
    the reaping loop of pwait. */
module CshProc {

  const BIGINDEX := 9

  /** Addresses are positions in memory; 0 is the null pointer. */
  type Ptr = nat

  datatype Flag = PRUNNING | PSTOPPED | PNEXITED | PAEXITED | PSIGNALED | PNOTIFY | PTIME | PFOREGND | PDUMPED
                | PREPORTED | PINTERRUPTED | PPTIME | PNEEDNOTE

  /** An index is kept in a character, which is signed. */
  type SChar = x: int | -128 <= x < 128

  function Stored(index: int): SChar {
    (index + 128) % 256 - 128
  }

  datatype Process = Process(p_friends: Ptr, p_flags: set<Flag>, p_index: SChar, p_pid: nat, p_jobid: nat)
  type Mem = seq<Process>

  // ---- what the table means ----

  /** The jobs: rings of processes, the leader first, and the leader of every live process. */
  datatype Jobs = Jobs(ring: map<Ptr, seq<Ptr>>, head: map<Ptr, Ptr>)

  ghost predicate Distinct(s: seq<Ptr>) {
    forall i, j :: 0 <= i < j < |s| ==> s[i] != s[j]
  }

  function After(r: seq<Ptr>, i: nat): Ptr
    requires i < |r|
  {
    if i + 1 < |r| then r[i + 1] else r[0]
  }

  /** The processes of a job form one ring, with one leader and one index. */
  ghost predicate RingOk(m: Mem, l: Ptr, r: seq<Ptr>) {
    && r != [] && r[0] == l && Distinct(r) && (forall i :: 0 <= i < |r| ==> 0 < r[i] < |m|)
    && (forall i :: 0 <= i < |r| ==> m[r[i]].p_friends == After(r, i))
    && (forall i :: 0 <= i < |r| ==> m[r[i]].p_jobid == m[l].p_pid && m[r[i]].p_index == m[l].p_index && m[r[i]].p_pid > 0)
  }

  ghost predicate Members(jobs: Jobs, l: Ptr, r: seq<Ptr>) {
    forall i :: 0 <= i < |r| ==> r[i] in jobs.head && jobs.head[r[i]] == l
  }

  ghost predicate JobsOk(m: Mem, jobs: Jobs) {
    && (forall l :: l in jobs.ring ==> RingOk(m, l, jobs.ring[l]) && Members(jobs, l, jobs.ring[l]))
    && (forall p :: p in jobs.head ==> jobs.head[p] in jobs.ring && p in jobs.ring[jobs.head[p]])
  }

  /** Live processes have different pids. */
  ghost predicate Different(m: Mem, jobs: Jobs) {
    forall p, q :: p in jobs.head && q in jobs.head && p != q && p < |m| && q < |m| ==> m[p].p_pid != m[q].p_pid
  }

  /** The list holds the live processes and some dead ones, each once. */
  ghost predicate ListOk(m: Mem, list: seq<Ptr>, jobs: Jobs) {
    && Distinct(list)
    && (forall i :: 0 <= i < |list| ==> 0 < list[i] < |m|)
    && (forall i :: 0 <= i < |list| ==> if m[list[i]].p_pid != 0 then list[i] in jobs.head else m[list[i]].p_index == 0)
    && (forall p :: p in jobs.head ==> p in list && p < |m| && m[p].p_pid != 0)
  }

  ghost predicate MaxIndex(m: Mem, jobs: Jobs, pmaxindex: int) {
    && (forall l :: l in jobs.ring && l < |m| ==> m[l].p_index <= pmaxindex)
    && (pmaxindex > 0 ==> exists l :: l in jobs.ring && l < |m| && m[l].p_index == pmaxindex)
  }

  /** Jobs have positive indices, all different, and pmaxindex is the largest of them. */
  ghost predicate IndexOk(m: Mem, jobs: Jobs, pmaxindex: int) {
    && (forall l :: l in jobs.ring && l < |m| ==> m[l].p_index > 0)
    && (forall k, l :: k in jobs.ring && l in jobs.ring && k != l && k < |m| && l < |m| ==> m[k].p_index != m[l].p_index)
    && MaxIndex(m, jobs, pmaxindex)
  }

  /** The current and the previous job, and the job being built, are leaders; no previous job without a current one. */
  ghost predicate CurrentOk(jobs: Jobs, pcurrent: Ptr, pprevious: Ptr) {
    && (pcurrent != 0 ==> pcurrent in jobs.ring)
    && (pprevious != 0 ==> pprevious in jobs.ring && pcurrent != 0 && pprevious != pcurrent)
  }

  lemma LeaderFacts(m: Mem, jobs: Jobs, p: Ptr)
    requires JobsOk(m, jobs) && p in jobs.head
    ensures 0 < p < |m| && jobs.head[p] in jobs.ring && RingOk(m, jobs.head[p], jobs.ring[jobs.head[p]]) && p in jobs.ring[jobs.head[p]]
    ensures m[p].p_pid > 0 && jobs.head[p] < |m|
  {
    var l := jobs.head[p];
    var i :| 0 <= i < |jobs.ring[l]| && jobs.ring[l][i] == p;
  }

  /** The leader is the process whose pid is the job id. */
  lemma LeaderIff(m: Mem, jobs: Jobs, p: Ptr)
    requires JobsOk(m, jobs) && Different(m, jobs) && p in jobs.head
    ensures p < |m| && (m[p].p_pid == m[p].p_jobid <==> p in jobs.ring)
    ensures p in jobs.ring ==> jobs.head[p] == p
  {
    LeaderFacts(m, jobs, p);
    var l := jobs.head[p];
    var r := jobs.ring[l];
    var i :| 0 <= i < |r| && r[i] == p;
    assert r[0] == l && l in jobs.head;
    if p in jobs.ring {
      assert jobs.ring[p][0] == p;
    }
  }

  // ---- a job goes ----

  ghost function Without(jobs: Jobs, l: Ptr): Jobs {
    Jobs(jobs.ring - {l}, map p | p in jobs.head && jobs.head[p] != l :: jobs.head[p])
  }

  function Dead(p: Process): Process {
    p.(p_index := 0, p_pid := 0, p_flags := p.p_flags - {PNEEDNOTE})
  }

  /** The processes of r have been flagged for deletion. */
  ghost predicate Flagged(m: Mem, m': Mem, r: seq<Ptr>) {
    |m'| == |m| && forall p :: 0 <= p < |m| ==> m'[p] == if p in r then Dead(m[p]) else m[p]
  }

  lemma InRing(m: Mem, jobs: Jobs, l: Ptr, p: Ptr)
    requires JobsOk(m, jobs) && l in jobs.ring && p in jobs.ring[l]
    ensures p in jobs.head && jobs.head[p] == l
  {
    var i :| 0 <= i < |jobs.ring[l]| && jobs.ring[l][i] == p;
  }

  lemma LeaderIn(m: Mem, jobs: Jobs, l: Ptr)
    requires JobsOk(m, jobs) && l in jobs.ring
    ensures 0 < l < |m| && l in jobs.head && jobs.head[l] == l && l in jobs.ring[l]
  {
    assert jobs.ring[l][0] == l;
  }

  lemma OtherRings(m: Mem, jobs: Jobs, l: Ptr, k: Ptr, p: Ptr)
    requires JobsOk(m, jobs) && l in jobs.ring && k in jobs.ring && k != l && p in jobs.ring[k]
    ensures p !in jobs.ring[l] && p in jobs.head && jobs.head[p] == k
  {
    InRing(m, jobs, k, p);
    if p in jobs.ring[l] {
      InRing(m, jobs, l, p);
    }
  }

  lemma FlaggedRing(m: Mem, m': Mem, jobs: Jobs, l: Ptr, k: Ptr)
    requires JobsOk(m, jobs) && l in jobs.ring && k in jobs.ring && k != l && Flagged(m, m', jobs.ring[l])
    ensures RingOk(m', k, jobs.ring[k])
  {
    var r := jobs.ring[k];
    forall i | 0 <= i < |r| ensures m'[r[i]] == m[r[i]] {
      OtherRings(m, jobs, l, k, r[i]);
    }
    assert r[0] == k;
  }

  lemma FlaggedJobs(m: Mem, m': Mem, jobs: Jobs, l: Ptr)
    requires JobsOk(m, jobs) && l in jobs.ring && Flagged(m, m', jobs.ring[l])
    ensures JobsOk(m', Without(jobs, l))
  {
    hide RingOk, Members, Flagged;
    var jobs' := Without(jobs, l);
    forall k | k in jobs'.ring ensures RingOk(m', k, jobs'.ring[k]) && Members(jobs', k, jobs'.ring[k]) {
      FlaggedRing(m, m', jobs, l, k);
      WithoutMembers(jobs, l, k);
    }
  }

  lemma WithoutMembers(jobs: Jobs, l: Ptr, k: Ptr)
    requires k in jobs.ring && k != l && Members(jobs, k, jobs.ring[k])
    ensures Members(Without(jobs, l), k, jobs.ring[k])
  {
  }

  lemma FlaggedLive(m: Mem, m': Mem, jobs: Jobs, l: Ptr, p: Ptr)
    requires JobsOk(m, jobs) && l in jobs.ring && Flagged(m, m', jobs.ring[l]) && p in jobs.head
    ensures p < |m| && (p in jobs.ring[l] <==> jobs.head[p] == l)
    ensures m'[p] == if jobs.head[p] == l then Dead(m[p]) else m[p]
  {
    LeaderFacts(m, jobs, p);
    if jobs.head[p] != l {
      OtherRings(m, jobs, l, jobs.head[p], p);
    }
  }

  lemma FlaggedDifferent(m: Mem, m': Mem, jobs: Jobs, l: Ptr)
    requires JobsOk(m, jobs) && l in jobs.ring && Flagged(m, m', jobs.ring[l]) && Different(m, jobs)
    ensures Different(m', Without(jobs, l))
  {
    hide RingOk;
    forall p | p in jobs.head ensures p < |m| && m'[p] == if jobs.head[p] == l then Dead(m[p]) else m[p] {
      FlaggedLive(m, m', jobs, l, p);
    }
    forall k | k in jobs.ring ensures k in jobs.head && jobs.head[k] == k {
      LeaderIn(m, jobs, k);
    }
  }

  lemma FlaggedList(m: Mem, m': Mem, jobs: Jobs, l: Ptr, list: seq<Ptr>)
    requires JobsOk(m, jobs) && l in jobs.ring && Flagged(m, m', jobs.ring[l]) && ListOk(m, list, jobs)
    ensures ListOk(m', list, Without(jobs, l))
  {
    hide RingOk;
    var jobs' := Without(jobs, l);
    forall p | p in jobs.head ensures p < |m| && m'[p] == if jobs.head[p] == l then Dead(m[p]) else m[p] {
      FlaggedLive(m, m', jobs, l, p);
    }
    forall i | 0 <= i < |list| ensures if m'[list[i]].p_pid != 0 then list[i] in jobs'.head else m'[list[i]].p_index == 0 {
      if list[i] in jobs.ring[l] {
        InRing(m, jobs, l, list[i]);
      }
    }
  }

  // ---- a job comes, or a process joins one ----

  ghost function WithJob(jobs: Jobs, p: Ptr): Jobs {
    Jobs(jobs.ring[p := [p]], jobs.head[p := p])
  }

  ghost function WithFriend(jobs: Jobs, l: Ptr, p: Ptr): Jobs
    requires l in jobs.ring
  {
    Jobs(jobs.ring[l := jobs.ring[l] + [p]], jobs.head[p := l])
  }

  /** One more process; of the others, only links have changed. */
  ghost predicate Added(m: Mem, m': Mem, pid: nat, flags: set<Flag>) {
    && |m'| == |m| + 1 && m'[|m|].p_pid == pid && m'[|m|].p_flags == flags
    && forall p :: 0 <= p < |m| ==> m'[p] == m[p].(p_friends := m'[p].p_friends)
  }

  ghost predicate FreshPid(m: Mem, jobs: Jobs, pid: nat) {
    pid > 0 && forall p :: p in jobs.head && p < |m| ==> m[p].p_pid != pid
  }

  ghost predicate FreshIndex(m: Mem, jobs: Jobs, index: int) {
    index > 0 && forall l :: l in jobs.ring && l < |m| ==> m[l].p_index != index
  }

  lemma RingGrows(m: Mem, m': Mem, l: Ptr, r: seq<Ptr>)
    requires RingOk(m, l, r) && |m| <= |m'| && forall i :: 0 <= i < |r| ==> m'[r[i]] == m[r[i]]
    ensures RingOk(m', l, r)
  {
    assert r[0] == l;
  }

  lemma NewJobJobs(m: Mem, jobs: Jobs, p: Process)
    requires JobsOk(m, jobs) && |m| > 0
    requires p.p_friends == |m| && p.p_jobid == p.p_pid > 0
    ensures JobsOk(m + [p], WithJob(jobs, |m|)) && |m| !in jobs.head && |m| !in jobs.ring
  {
    hide RingOk, Members;
    var q, m', jobs' := |m|, m + [p], WithJob(jobs, |m|);
    OneRing(m', q, p);
    forall k | k in jobs.head ensures k < |m| {
      LeaderFacts(m, jobs, k);
    }
    forall k | k in jobs.ring ensures k < |m| && RingOk(m', k, jobs.ring[k]) {
      LeaderIn(m, jobs, k);
      RingSame(m, m', k, jobs.ring[k]);
    }
    forall k | k in jobs'.ring ensures Members(jobs', k, jobs'.ring[k]) {
      NewMembers(jobs, q, k);
    }
  }

  lemma NewMembers(jobs: Jobs, q: Ptr, k: Ptr)
    requires q !in jobs.head && (k == q || (k in jobs.ring && Members(jobs, k, jobs.ring[k])))
    ensures Members(WithJob(jobs, q), k, WithJob(jobs, q).ring[k])
  {
  }

  lemma OneRing(m: Mem, q: Ptr, p: Process)
    requires 0 < q < |m| && m[q] == p && p.p_friends == q && p.p_jobid == p.p_pid > 0
    ensures RingOk(m, q, [q])
  {
  }

  lemma RingSame(m: Mem, m': Mem, l: Ptr, r: seq<Ptr>)
    requires RingOk(m, l, r) && |m| <= |m'| && forall z :: 0 <= z < |m| ==> m'[z] == m[z]
    ensures RingOk(m', l, r)
  {
    RingGrows(m, m', l, r);
  }

  lemma NewJobRest(m: Mem, jobs: Jobs, list: seq<Ptr>, p: Process)
    requires JobsOk(m, jobs) && Different(m, jobs) && ListOk(m, list, jobs) && |m| > 0 && |m| !in jobs.head
    requires FreshPid(m, jobs, p.p_pid)
    ensures Different(m + [p], WithJob(jobs, |m|)) && ListOk(m + [p], [|m|] + list, WithJob(jobs, |m|))
  {
    hide JobsOk, RingOk;
    forall k | k in jobs.ring ensures k < |m| {
      LeaderIn(m, jobs, k);
    }
    NewInList(m, list, p);
  }

  lemma NewInList(m: Mem, list: seq<Ptr>, p: Process)
    requires Distinct(list) && forall i :: 0 <= i < |list| ==> 0 < list[i] < |m|
    ensures Distinct([|m|] + list)
  {
  }

  /** The last of the ring now points to the new process, and this one to the leader. */
  ghost predicate Joined(m: Mem, m': Mem, l: Ptr, r: seq<Ptr>, p: Process)
    requires RingOk(m, l, r)
  {
    var last := r[|r| - 1];
    && m' == m[last := m[last].(p_friends := |m|)] + [p]
    && p.p_friends == l && p.p_jobid == m[l].p_pid && p.p_index == m[l].p_index && p.p_pid > 0
  }

  lemma JoinedFriend(m: Mem, m': Mem, l: Ptr, r: seq<Ptr>, p: Process, i: nat)
    requires RingOk(m, l, r) && Joined(m, m', l, r, p) && i < |r| + 1
    ensures (r + [|m|])[i] < |m'| && m'[(r + [|m|])[i]].p_friends == After(r + [|m|], i)
  {
    if i < |r| - 1 {
      assert r[i] != r[|r| - 1];
    }
  }

  lemma JoinedFields(m: Mem, m': Mem, l: Ptr, r: seq<Ptr>, p: Process)
    requires RingOk(m, l, r) && Joined(m, m', l, r, p)
    ensures forall z :: 0 <= z < |m| ==> m'[z] == m[z].(p_friends := m'[z].p_friends)
    ensures |m'| == |m| + 1 && m'[|m|] == p && l < |m|
  {
    assert r[0] == l;
  }

  lemma JoinedRing(m: Mem, m': Mem, l: Ptr, r: seq<Ptr>, p: Process)
    requires RingOk(m, l, r) && Joined(m, m', l, r, p)
    ensures RingOk(m', l, r + [|m|])
  {
    JoinedFields(m, m', l, r, p);
    forall i | 0 <= i < |r| + 1 ensures (r + [|m|])[i] < |m'| && m'[(r + [|m|])[i]].p_friends == After(r + [|m|], i) {
      JoinedFriend(m, m', l, r, p, i);
    }
    RingExtended(m, m', l, r, p);
  }

  lemma RingExtended(m: Mem, m': Mem, l: Ptr, r: seq<Ptr>, p: Process)
    requires RingOk(m, l, r) && l < |m| && |m'| == |m| + 1 && m'[|m|] == p
    requires p.p_jobid == m[l].p_pid && p.p_index == m[l].p_index && p.p_pid > 0
    requires forall z :: 0 <= z < |m| ==> m'[z] == m[z].(p_friends := m'[z].p_friends)
    requires forall i :: 0 <= i < |r| + 1 ==> (r + [|m|])[i] < |m'| && m'[(r + [|m|])[i]].p_friends == After(r + [|m|], i)
    ensures RingOk(m', l, r + [|m|])
  {
    hide After;
    var r' := r + [|m|];
    assert r[0] == l;
    assert Distinct(r');
    forall i | 0 <= i < |r'| ensures 0 < r'[i] < |m'| && m'[r'[i]].p_jobid == m'[l].p_pid && m'[r'[i]].p_index == m'[l].p_index && m'[r'[i]].p_pid > 0 {
      if i < |r| {
        assert r'[i] == r[i];
      }
    }
  }

  lemma JoinedOther(m: Mem, m': Mem, jobs: Jobs, l: Ptr, p: Process, k: Ptr)
    requires JobsOk(m, jobs) && l in jobs.ring && k in jobs.ring && k != l && RingOk(m, l, jobs.ring[l]) && Joined(m, m', l, jobs.ring[l], p)
    ensures RingOk(m', k, jobs.ring[k])
  {
    var r := jobs.ring[k];
    forall i | 0 <= i < |r| ensures m'[r[i]] == m[r[i]] {
      OtherRings(m, jobs, l, k, r[i]);
    }
    RingGrows(m, m', k, r);
  }

  lemma JoinedMembers(jobs: Jobs, l: Ptr, q: Ptr, k: Ptr)
    requires l in jobs.ring && k in jobs.ring && Members(jobs, k, jobs.ring[k]) && q !in jobs.head
    ensures Members(WithFriend(jobs, l, q), k, WithFriend(jobs, l, q).ring[k])
  {
  }

  lemma JoinedJobs(m: Mem, m': Mem, jobs: Jobs, l: Ptr, p: Process)
    requires JobsOk(m, jobs) && l in jobs.ring && RingOk(m, l, jobs.ring[l]) && Joined(m, m', l, jobs.ring[l], p)
    ensures JobsOk(m', WithFriend(jobs, l, |m|)) && |m| !in jobs.head
  {
    hide RingOk, Joined, Members;
    var q, jobs' := |m|, WithFriend(jobs, l, |m|);
    forall k | k in jobs.head ensures k < |m| {
      LeaderFacts(m, jobs, k);
    }
    JoinedRing(m, m', l, jobs.ring[l], p);
    forall k | k in jobs'.ring ensures Members(jobs', k, jobs'.ring[k]) {
      JoinedMembers(jobs, l, q, k);
    }
    forall k | k in jobs'.ring
      ensures RingOk(m', k, jobs'.ring[k])
    {
      if k != l {
        JoinedOther(m, m', jobs, l, p, k);
      }
    }
  }

  /** Pids and indices are as before, with one process more. */
  ghost predicate OneMore(m: Mem, m': Mem, p: Process) {
    && |m'| == |m| + 1 && m'[|m|].p_pid == p.p_pid > 0
    && forall z :: 0 <= z < |m| ==> m'[z].p_pid == m[z].p_pid && m'[z].p_index == m[z].p_index
  }

  lemma JoinedOneMore(m: Mem, m': Mem, l: Ptr, r: seq<Ptr>, p: Process)
    requires RingOk(m, l, r) && Joined(m, m', l, r, p)
    ensures OneMore(m, m', p)
  {
  }

  lemma JoinedDifferent(m: Mem, m': Mem, jobs: Jobs, l: Ptr, p: Process)
    requires JobsOk(m, jobs) && Different(m, jobs) && l in jobs.ring && OneMore(m, m', p)
    requires |m| !in jobs.head && FreshPid(m, jobs, p.p_pid)
    ensures Different(m', WithFriend(jobs, l, |m|))
  {
    hide JobsOk, RingOk;
    forall k | k in jobs.ring ensures k < |m| {
      LeaderIn(m, jobs, k);
    }
    forall k | k in jobs.head ensures k < |m| {
      LeaderFacts(m, jobs, k);
    }
  }

  lemma JoinedList(m: Mem, m': Mem, jobs: Jobs, list: seq<Ptr>, l: Ptr, p: Process)
    requires ListOk(m, list, jobs) && l in jobs.ring && OneMore(m, m', p) && |m| > 0
    ensures ListOk(m', [|m|] + list, WithFriend(jobs, l, |m|))
  {
    NewInList(m, list, p);
  }

  /** Indices are a matter of the leaders. */
  lemma SameIndices(m: Mem, m': Mem, jobs: Jobs, jobs': Jobs, pmaxindex: int)
    requires jobs'.ring.Keys == jobs.ring.Keys
    requires forall l :: l in jobs.ring ==> (l < |m| <==> l < |m'|) && (l < |m| ==> m'[l].p_index == m[l].p_index)
    requires IndexOk(m, jobs, pmaxindex)
    ensures IndexOk(m', jobs', pmaxindex)
  {
    assert forall l :: l in jobs.ring <==> l in jobs'.ring;
    if pmaxindex > 0 {
      var l :| l in jobs.ring && l < |m| && m[l].p_index == pmaxindex;
      assert l in jobs'.ring && m'[l].p_index == pmaxindex;
    }
  }

  lemma JoinedIndex(m: Mem, m': Mem, jobs: Jobs, l: Ptr, p: Process, pmaxindex: int)
    requires JobsOk(m, jobs) && l in jobs.ring && OneMore(m, m', p)
    ensures IndexOk(m, jobs, pmaxindex) <==> IndexOk(m', WithFriend(jobs, l, |m|), pmaxindex)
  {
    hide JobsOk, RingOk, IndexOk;
    forall k | k in jobs.ring ensures k < |m| {
      LeaderIn(m, jobs, k);
    }
    var jobs' := WithFriend(jobs, l, |m|);
    assert jobs'.ring.Keys == jobs.ring.Keys;
    if IndexOk(m, jobs, pmaxindex) {
      SameIndices(m, m', jobs, jobs', pmaxindex);
    }
    if IndexOk(m', jobs', pmaxindex) {
      SameIndices(m', m, jobs', jobs, pmaxindex);
    }
  }

  // ---- dead processes are freed ----

  function Living(m: Mem, list: seq<Ptr>): seq<Ptr> {
    if list == [] then []
    else if list[0] < |m| && m[list[0]].p_pid != 0 then [list[0]] + Living(m, list[1..])
    else Living(m, list[1..])
  }

  lemma {:induction false} LivingIn(m: Mem, list: seq<Ptr>)
    requires Distinct(list)
    ensures forall p :: p in Living(m, list) <==> p in list && p < |m| && m[p].p_pid != 0
    ensures Distinct(Living(m, list))
  {
    if list != [] {
      LivingIn(m, list[1..]);
      assert list == [list[0]] + list[1..];
    }
  }

  lemma ReapedList(m: Mem, list: seq<Ptr>, jobs: Jobs)
    requires ListOk(m, list, jobs)
    ensures ListOk(m, Living(m, list), jobs)
    ensures forall p :: p in Living(m, list) <==> p in jobs.head
  {
    LivingIn(m, list);
    var s := Living(m, list);
    forall i | 0 <= i < |s| ensures 0 < s[i] < |m| && m[s[i]].p_pid != 0 && s[i] in jobs.head {
      assert s[i] in list;
      var j :| 0 <= j < |list| && list[j] == s[i];
    }
  }

  // ---- flags ----

  /** Only flags differ. */
  ghost predicate SameButFlags(m: Mem, m': Mem) {
    |m'| == |m| && forall z :: 0 <= z < |m| ==> m'[z] == m[z].(p_flags := m'[z].p_flags)
  }

  lemma FlagsJobs(m: Mem, m': Mem, jobs: Jobs)
    requires SameButFlags(m, m') && JobsOk(m, jobs)
    ensures JobsOk(m', jobs)
  {
    forall l | l in jobs.ring ensures RingOk(m', l, jobs.ring[l]) {
      FlagsRing(m, m', l, jobs.ring[l]);
    }
  }

  lemma FlagsRing(m: Mem, m': Mem, l: Ptr, r: seq<Ptr>)
    requires SameButFlags(m, m') && RingOk(m, l, r)
    ensures RingOk(m', l, r)
  {
    assert r[0] == l;
  }

  lemma FlagsRest(m: Mem, m': Mem, jobs: Jobs, list: seq<Ptr>)
    requires SameButFlags(m, m') && Different(m, jobs) && ListOk(m, list, jobs)
    ensures Different(m', jobs) && ListOk(m', list, jobs)
  {
    FlagsList(m, m', jobs, list);
  }

  lemma FlagsIndex(m: Mem, m': Mem, jobs: Jobs, pmaxindex: int)
    requires SameButFlags(m, m')
    ensures IndexOk(m, jobs, pmaxindex) ==> IndexOk(m', jobs, pmaxindex)
  {
    hide IndexOk;
    if IndexOk(m, jobs, pmaxindex) {
      SameIndices(m, m', jobs, jobs, pmaxindex);
    }
  }

  lemma FlagsList(m: Mem, m': Mem, jobs: Jobs, list: seq<Ptr>)
    requires SameButFlags(m, m') && ListOk(m, list, jobs)
    ensures ListOk(m', list, jobs)
  {
  }

  class Table {
    var m: Mem
    var proclist: seq<Ptr>     // the latest first
    var pcurrjob: Ptr          // the job being built
    var pcurrent: Ptr
    var pprevious: Ptr
    var pmaxindex: int
    ghost var jobs: Jobs

    /** The processes and the jobs, whatever the job variables say. */
    ghost predicate Core()
      reads this`m, this`proclist, this`jobs
    {
      CoreOf(m, proclist, jobs)
    }

    ghost predicate Valid()
      reads this
    {
      && Core() && CurrentOk(jobs, pcurrent, pprevious) && 0 <= pmaxindex <= 128
      && (pcurrjob != 0 ==> pcurrjob in jobs.ring)
    }

    /** The indices are as they should be. */
    ghost predicate Numbered()
      reads this`m, this`jobs, this`pmaxindex
    {
      IndexOk(m, jobs, pmaxindex)
    }

    constructor ()
      ensures Valid() && Numbered() && jobs == Jobs(map[], map[])
    {
      m := [Process(0, {}, 0, 0, 0)];
      proclist, pcurrjob, pcurrent, pprevious, pmaxindex := [], 0, 0, 0, 0;
      jobs := Jobs(map[], map[]);
    }

    /** The latest job that is not pp, preferably a stopped one. */
    method PGetCurr(pp: Ptr) returns (xp: Ptr)
      requires Core()
      ensures xp != 0 ==> xp in jobs.ring && xp != pp && xp != pcurrent
      ensures xp == 0 ==> forall l :: l in jobs.ring ==> l == pp || l == pcurrent
      ensures (exists l :: l in jobs.ring && l != pp && l != pcurrent && l < |m| && PSTOPPED in m[l].p_flags) ==>
                xp < |m| && PSTOPPED in m[xp].p_flags
      ensures xp == Latest(m, proclist, jobs, pp, pcurrent)
    {
      hide Core, Latest;
      xp := 0;
      var i := 0;
      while i < |proclist|
        invariant i <= |proclist|
        invariant xp != 0 ==> xp in jobs.ring && xp != pp && xp != pcurrent && exists k :: FirstChoice(k, xp, pp)
        invariant forall j :: 0 <= j < i && proclist[j] in jobs.ring && proclist[j] != pp && proclist[j] != pcurrent ==>
                    xp != 0 && proclist[j] < |m| && PSTOPPED !in m[proclist[j]].p_flags
      {
        var np := proclist[i];
        Leads(np, i);
        if np != pcurrent && np != pp && m[np].p_pid != 0 && m[np].p_pid == m[np].p_jobid {
          if PSTOPPED in m[np].p_flags {
            assert FirstChoice(i, np, pp);
            ChoiceIsLatest(np, pp);
            return np;
          }
          if xp == 0 {
            xp := np;
            assert FirstChoice(i, np, pp);
          }
        }
        i := i + 1;
      }
      AllLeaders();
      ChoiceIsLatest(xp, pp);
    }

    /** Job xp is at place i; other jobs before it are not stopped, while it is. */
    ghost predicate FirstChoice(i: nat, xp: Ptr, pp: Ptr)
      reads this`m, this`proclist, this`jobs, this`pcurrent
    {
      && i < |proclist| && proclist[i] == xp < |m|
      && forall j :: 0 <= j < i && proclist[j] in jobs.ring && proclist[j] != pp && proclist[j] != pcurrent ==>
           PSTOPPED in m[xp].p_flags && proclist[j] < |m| && PSTOPPED !in m[proclist[j]].p_flags
    }

    lemma ChoiceIsLatest(xp: Ptr, pp: Ptr)
      requires if xp == 0 then Others(jobs, pp, pcurrent) == {} else xp in Others(jobs, pp, pcurrent) && exists i :: FirstChoice(i, xp, pp)
      requires StoppedOf(m, Others(jobs, pp, pcurrent)) != {} ==> HasFlag(m, xp, PSTOPPED)
      ensures xp == Latest(m, proclist, jobs, pp, pcurrent)
    {
      var s := Others(jobs, pp, pcurrent);
      if xp == 0 {
        FirstInNone(proclist, s);
      } else {
        var i :| FirstChoice(i, xp, pp);
        FirstInAt(proclist, if HasFlag(m, xp, PSTOPPED) then StoppedOf(m, s) else s, i);
      }
    }

    lemma AllLeaders()
      requires Core()
      ensures forall l :: l in jobs.ring ==> l in proclist
    {
      forall l | l in jobs.ring ensures l in proclist {
        LeaderIn(m, jobs, l);
      }
    }

    lemma Leads(np: Ptr, i: nat)
      requires Core() && i < |proclist| && proclist[i] == np
      ensures 0 < np < |m| && (m[np].p_pid != 0 && m[np].p_pid == m[np].p_jobid <==> np in jobs.ring)
    {
      if m[np].p_pid != 0 {
        LeaderIff(m, jobs, np);
      } else if np in jobs.ring {
        LeaderIn(m, jobs, np);
      }
    }

    /** The job is neither the current nor the previous one; the others close up. */
    method PClrCurr(pp: Ptr)
      requires Core() && CurrentOk(jobs, pcurrent, pprevious) && pp in jobs.ring
      modifies this`pcurrent, this`pprevious
      ensures CurrentOk(jobs, pcurrent, pprevious)
      ensures Cleared(m, proclist, jobs, pp, old(pcurrent), old(pprevious), pcurrent, pprevious)
      ensures old(pcurrent) == pp && pcurrent == 0 ==> jobs.ring.Keys == {pp}
    {
      hide Core, Latest;
      NotNull(pp);
      if pp == pcurrent {
        if pprevious != 0 {
          pcurrent := pprevious;
          pprevious := PGetCurr(pp);
        } else {
          pcurrent := PGetCurr(pp);
          pprevious := PGetCurr(pp);
        }
      } else if pp == pprevious {
        pprevious := PGetCurr(pp);
      }
    }

    lemma NotNull(pp: Ptr)
      requires Core() && pp in jobs.ring
      ensures 0 < pp < |m|
    {
      LeaderIn(m, jobs, pp);
    }

    /** The leader of the job of a live process. */
    method Leader(pp0: Ptr) returns (pp: Ptr)
      requires Core() && pp0 in jobs.head
      ensures pp == jobs.head[pp0] && pp in jobs.ring
    {
      ghost var l := jobs.head[pp0];
      ghost var r := jobs.ring[l];
      pp := pp0;
      LeaderFacts(m, jobs, pp0);
      ghost var i: nat :| i < |r| && r[i] == pp0;
      LeaderIff(m, jobs, pp);
      while m[pp].p_pid != m[pp].p_jobid
        invariant i < |r| && r[i] == pp && pp in jobs.head && jobs.head[pp] == l && pp < |m|
        invariant m[pp].p_pid == m[pp].p_jobid <==> pp in jobs.ring
        invariant pp in jobs.ring ==> jobs.head[pp] == pp
        decreases if i == 0 then 0 else |r| - i
      {
        RingStep(l, i);
        pp := m[pp].p_friends;
        i := if i + 1 < |r| then i + 1 else 0;
        InRing(m, jobs, l, pp);
        LeaderIff(m, jobs, pp);
      }
    }

    lemma FirstOfRing(l: Ptr)
      requires Core() && l in jobs.ring
      ensures RingOk(m, l, jobs.ring[l]) && jobs.ring[l] != [] && jobs.ring[l][0] == l
    {
    }

    lemma RingStep(l: Ptr, i: nat)
      requires Core() && l in jobs.ring && i < |jobs.ring[l]|
      ensures RingOk(m, l, jobs.ring[l])
      ensures jobs.ring[l][i] < |m| && m[jobs.ring[l][i]].p_friends == After(jobs.ring[l], i) && jobs.ring[l][0] == l
    {
    }

    /** All processes of a job are flagged for deletion. */
    method Flag(pp: Ptr)
      requires Core() && pp in jobs.ring
      modifies this`m
      ensures Flagged(old(m), m, jobs.ring[pp])
    {
      hide Core, Flagged, RingOk;
      ghost var r := jobs.ring[pp];
      ghost var m0 := m;
      FirstOfRing(pp);
      FlagNone(m, r);
      var np := pp;
      ghost var i: nat := 0;
      while true
        invariant i < |r| && np == r[i] && Flagged(m0, m, r[..i])
        decreases |r| - i
      {
        FlagStep(m0, m, pp, r, i);
        m := m[np := Dead(m[np])];
        np := m[np].p_friends;
        i := i + 1;
        if np == pp {
          break;
        }
      }
      assert r[..i] == r;
    }

    /** The largest index in the list. */
    method LargestIndex() returns (index: int)
      requires Core()
      ensures MaxIndex(m, jobs, index) && 0 <= index < 128
    {
      hide CoreOf;
      InMemory();
      index := 0;
      var i := 0;
      while i < |proclist|
        invariant i <= |proclist| && 0 <= index < 128
        invariant forall j :: 0 <= j < i ==> proclist[j] < |m| && m[proclist[j]].p_index <= index
        invariant index > 0 ==> exists j :: 0 <= j < |proclist| && proclist[j] < |m| && m[proclist[j]].p_index == index
      {
        if m[proclist[i]].p_index > index {
          index := m[proclist[i]].p_index;
        }
        i := i + 1;
      }
      IsMax(index);
    }

    lemma InMemory()
      requires Core()
      ensures forall j :: 0 <= j < |proclist| ==> 0 < proclist[j] < |m|
    {
    }

    lemma IsMax(index: int)
      requires Core() && forall j :: 0 <= j < |proclist| ==> proclist[j] < |m| && m[proclist[j]].p_index <= index
      requires index > 0 ==> exists j :: 0 <= j < |proclist| && proclist[j] < |m| && m[proclist[j]].p_index == index
      ensures MaxIndex(m, jobs, index)
    {
      forall l | l in jobs.ring ensures l < |m| && m[l].p_index <= index {
        AllLeaders();
        NotNull(l);
      }
      if index > 0 {
        var j :| 0 <= j < |proclist| && m[proclist[j]].p_index == index;
        var p := proclist[j];
        SameIndex(p);
      }
    }

    lemma SameIndex(p: Ptr)
      requires Core() && p in jobs.head
      ensures p < |m| && jobs.head[p] in jobs.ring && jobs.head[p] < |m| && m[jobs.head[p]].p_index == m[p].p_index
    {
      LeaderFacts(m, jobs, p);
    }

    /** The job of a process goes; a process that is dead already is left alone. */
    method PFlush(pp0: Ptr)
      requires Valid() && 0 < pp0 < |m| && (m[pp0].p_pid != 0 ==> pp0 in jobs.head)
      modifies this
      ensures Valid() && proclist == old(proclist) && (old(Numbered()) ==> Numbered())
      ensures old(pmaxindex) == 128 ==> pmaxindex == 128
      ensures old(m)[pp0].p_pid == 0 ==> jobs == old(jobs) && m == old(m) && pcurrent == old(pcurrent) && pprevious == old(pprevious)
      ensures old(m)[pp0].p_pid != 0 ==> jobs == Without(old(jobs), old(jobs).head[pp0]) && Flagged(old(m), m, old(jobs).ring[old(jobs).head[pp0]])
      ensures pcurrjob == if old(m)[pp0].p_pid != 0 && old(pcurrjob) == old(jobs).head[pp0] then 0 else old(pcurrjob)
      ensures old(m)[pp0].p_pid != 0 ==>
                Cleared(old(m), proclist, old(jobs), old(jobs).head[pp0], old(pcurrent), old(pprevious), pcurrent, pprevious)
    {
      hide CoreOf, IndexOk, Flagged, CurrentOk, Without;
      if m[pp0].p_pid == 0 {
        return;
      }
      var pp := Leader(pp0);
      PClrCurr(pp);
      CurrentWithout(jobs, pcurrent, pprevious, pp);
      WithoutRings(jobs, pp);
      if pp == pcurrjob {
        pcurrjob := 0;
      }
      Drop(pp);
    }

    /** The processes of the job are flagged, and the largest index is found again if it was theirs. */
    method Drop(pp: Ptr)
      requires Core() && pp in jobs.ring && 0 <= pmaxindex <= 128
      modifies this`m, this`jobs, this`pmaxindex
      ensures Core() && 0 <= pmaxindex <= 128 && (old(Numbered()) ==> Numbered())
      ensures old(pmaxindex) == 128 ==> pmaxindex == 128
      ensures jobs == Without(old(jobs), pp) && Flagged(old(m), m, old(jobs).ring[pp])
    {
      hide CoreOf, MaxIndex, Flagged, IndexOk;
      ghost var m0, jobs0, max0 := m, jobs, pmaxindex;
      NotNull(pp);
      var index := m[pp].p_index;
      Flag(pp);
      FlaggedCore(m0, m, jobs0, pp, proclist);
      jobs := Without(jobs, pp);
      if index == pmaxindex {
        pmaxindex := LargestIndex();
      }
      FlaggedIndex(m0, m, proclist, jobs0, pp, max0, pmaxindex);
    }

    /** The last process of the ring of a leader. */
    method LastFriend(l: Ptr) returns (fp: Ptr)
      requires Core() && l in jobs.ring
      ensures |jobs.ring[l]| > 0 && fp == jobs.ring[l][|jobs.ring[l]| - 1] && 0 < fp < |m| && m[fp].p_friends == l
    {
      hide CoreOf;
      ghost var r := jobs.ring[l];
      FirstOfRing(l);
      fp := l;
      ghost var i: nat := 0;
      RingStep(l, i);
      while m[fp].p_friends != l
        invariant i < |r| && fp == r[i] && fp < |m| && m[fp].p_friends == After(r, i)
        decreases |r| - i
      {
        fp := m[fp].p_friends;
        i := i + 1;
        RingStep(l, i);
      }
      LastOfRing(m, l, r, i);
    }

    /** The index of a new job: the next one, or when indices get large, the first that is free. */
    method NewIndex() returns (index: int)
      requires Core() && 0 <= pmaxindex <= 128
      modifies this`pmaxindex
      ensures 0 < index <= 128 && Chosen(m, jobs, old(pmaxindex), index)
      ensures pmaxindex == if index > old(pmaxindex) then index else old(pmaxindex)
    {
      if pmaxindex < BIGINDEX {
        pmaxindex := pmaxindex + 1;
        return pmaxindex;
      }
      index := 1;
      while true
        invariant 0 < index <= 128 && pmaxindex == old(pmaxindex)
        invariant forall k :: 0 < k < index ==> !FreshIndex(m, jobs, k)
        decreases 128 - index
      {
        var taken := IndexTaken(index);
        if !taken {
          if index > pmaxindex {
            pmaxindex := index;
          }
          return;
        }
        index := index + 1;
      }
    }

    method IndexTaken(index: int) returns (taken: bool)
      requires Core() && index > 0
      ensures taken ==> index < 128
      ensures taken <==> !FreshIndex(m, jobs, index)
    {
      hide CoreOf;
      InMemory();
      AllLeaders();
      var i := 0;
      while i < |proclist|
        invariant i <= |proclist| && forall j :: 0 <= j < i ==> proclist[j] < |m| && m[proclist[j]].p_index != index
      {
        if m[proclist[i]].p_index == index {
          IndexOfJob(proclist[i]);
          return true;
        }
        i := i + 1;
      }
      taken := false;
    }

    lemma IndexOfJob(p: Ptr)
      requires Core() && p in proclist
      ensures p < |m| && (m[p].p_index > 0 ==> !FreshIndex(m, jobs, m[p].p_index))
    {
      InMemory();
      if p in jobs.head {
        SameIndex(p);
      }
    }

    /** A new process: it joins the job being built, or starts one. */
    method PAlloc(pid: nat, flags: set<Flag>)
      requires Valid() && FreshPid(m, jobs, pid)
      modifies this
      ensures Valid() && proclist == [|old(m)|] + old(proclist)
      ensures old(pcurrjob) != 0 ==> jobs == WithFriend(old(jobs), old(pcurrjob), |old(m)|) && pcurrjob == old(pcurrjob)
      ensures old(pcurrjob) == 0 ==> jobs == WithJob(old(jobs), |old(m)|) && pcurrjob == |old(m)|
      ensures Added(old(m), m, pid, flags)
      ensures old(pcurrjob) == 0 ==> IndexGiven(old(m), old(jobs), old(pmaxindex), m, pmaxindex)
      ensures old(Numbered()) ==> (Numbered() <==> old(pcurrjob) != 0 || |old(jobs).ring.Keys| < 127)
      ensures old(pmaxindex) == 128 ==> pmaxindex == 128
      ensures old(pcurrjob) != 0 || old(pprevious) != 0 ==> pcurrent == old(pcurrent) && pprevious == old(pprevious)
      ensures old(pcurrjob) == 0 && old(pcurrent) == 0 ==> pcurrent == |old(m)| && pprevious == 0
      ensures old(pcurrjob) == 0 && old(pcurrent) != 0 && old(pprevious) == 0 ==> pcurrent == old(pcurrent) && pprevious == |old(m)|
    {
      hide CoreOf, IndexOk, CurrentOk, FreshPid;
      if pcurrjob != 0 {
        AddFriend(pid, flags);
      } else {
        AddJob(pid, flags);
      }
    }

    method AddJob(pid: nat, flags: set<Flag>)
      requires Core() && CurrentOk(jobs, pcurrent, pprevious) && FreshPid(m, jobs, pid) && 0 <= pmaxindex <= 128
      modifies this
      ensures Core() && CurrentOk(jobs, pcurrent, pprevious) && pcurrjob in jobs.ring && 0 <= pmaxindex <= 128
      ensures proclist == [|old(m)|] + old(proclist) && jobs == WithJob(old(jobs), |old(m)|) && pcurrjob == |old(m)|
      ensures Added(old(m), m, pid, flags) && IndexGiven(old(m), old(jobs), old(pmaxindex), m, pmaxindex)
      ensures old(Numbered()) ==> (Numbered() <==> |old(jobs).ring.Keys| < 127)
      ensures old(pprevious) != 0 ==> pcurrent == old(pcurrent) && pprevious == old(pprevious)
      ensures old(pcurrent) == 0 ==> pcurrent == |old(m)| && pprevious == 0
      ensures old(pcurrent) != 0 && old(pprevious) == 0 ==> pcurrent == old(pcurrent) && pprevious == |old(m)|
    {
      hide CoreOf, IndexOk, FreshPid, Chosen;
      ghost var m0, jobs0 := m, jobs;
      NotEmpty();
      ghost var max0 := pmaxindex;
      var index := NewIndex();
      var pp := |m|;
      var p := Process(pp, flags, Stored(index), pid, pid);
      NewJobAll(m, m + [p], proclist, [pp] + proclist, jobs, p);
      NewJobIndex(m, proclist, jobs, p, max0, index, pmaxindex);
      m := m + [p];
      jobs := WithJob(jobs, pp);
      pcurrjob := pp;
      if pcurrent == 0 {
        pcurrent := pp;
      } else if pprevious == 0 {
        pprevious := pp;
      }
      proclist := [pp] + proclist;
    }

    lemma NotEmpty()
      requires Core()
      ensures |m| > 0
    {
    }

    method AddFriend(pid: nat, flags: set<Flag>)
      requires Core() && CurrentOk(jobs, pcurrent, pprevious) && pcurrjob in jobs.ring && FreshPid(m, jobs, pid)
      modifies this`m, this`jobs, this`proclist
      ensures Core() && CurrentOk(jobs, pcurrent, pprevious) && pcurrjob in jobs.ring
      ensures proclist == [|old(m)|] + old(proclist) && jobs == WithFriend(old(jobs), pcurrjob, |old(m)|)
      ensures Added(old(m), m, pid, flags) && (old(Numbered()) <==> Numbered())
    {
      hide IndexOk, CoreOf, RingOk, FreshPid, CurrentOk, WithFriend;
      ghost var m0, jobs0, l := m, jobs, pcurrjob;
      NotNull(pcurrjob);
      FirstOfRing(pcurrjob);
      var pp := Process(pcurrjob, flags, m[pcurrjob].p_index, pid, m[pcurrjob].p_pid);
      var fp := LastFriend(pcurrjob);
      m := m + [pp];
      m := m[fp := m[fp].(p_friends := |m| - 1)];
      assert m == m0[fp := m0[fp].(p_friends := |m0|)] + [pp];
      PositivePid(m0, jobs0, pid);
      JoinedAll(m0, m, proclist, [|m0|] + proclist, jobs0, l, pp, pmaxindex);
      CurrentWithFriend(jobs0, l, |m0|, pcurrent, pprevious);
      jobs := WithFriend(jobs, l, |m0|);
      proclist := [|m| - 1] + proclist;
    }

    /** Dead processes leave the list. */
    method Reap()
      requires Valid()
      modifies this`proclist
      ensures Valid() && proclist == Living(m, old(proclist)) && (old(Numbered()) <==> Numbered())
      ensures forall p :: p in proclist <==> p in jobs.head
    {
      hide CoreOf, IndexOk, CurrentOk;
      ghost var list0 := proclist;
      InMemory();
      ReapedCore(m, list0, jobs);
      var i := 0;
      StartLiving(m, list0);
      while i < |proclist|
        invariant i <= |proclist| && (forall j :: 0 <= j < |proclist| ==> proclist[j] < |m|)
        invariant Living(m, list0) == proclist[..i] + Living(m, proclist[i..])
        decreases |proclist| - i
      {
        LivingStep(m, proclist, i);
        if m[proclist[i]].p_pid == 0 {
          proclist := proclist[..i] + proclist[i + 1..];
        } else {
          i := i + 1;
        }
      }
      assert proclist[..i] == proclist && proclist[i..] == [] && Living(m, []) == [];
      assert Living(m, list0) == proclist;
    }

    /** The process with that pid, or 0. */
    method FindPid(pid: nat) returns (pp: Ptr)
      requires Core() && pid > 0
      ensures pp != 0 ==> pp in jobs.head && pp < |m| && m[pp].p_pid == pid
      ensures pp == 0 ==> forall p :: p in jobs.head && p < |m| ==> m[p].p_pid != pid
    {
      hide CoreOf;
      InMemory();
      LiveListed();
      var i := 0;
      while i < |proclist|
        invariant i <= |proclist| && forall j :: 0 <= j < i ==> proclist[j] < |m| && m[proclist[j]].p_pid != pid
      {
        if m[proclist[i]].p_pid == pid {
          return proclist[i];
        }
        i := i + 1;
      }
      pp := 0;
    }

    lemma LiveListed()
      requires Core()
      ensures forall p :: p in jobs.head ==> p in proclist && 0 < p < |m|
      ensures forall p :: p in proclist && p < |m| && m[p].p_pid != 0 ==> p in jobs.head
    {
      forall p | p in jobs.head ensures 0 < p < |m| {
        LeaderFacts(m, jobs, p);
      }
    }

    method PutFlags(pp: Ptr, flags: set<Flag>)
      requires Core() && pp < |m|
      modifies this`m
      ensures Core() && (old(Numbered()) ==> Numbered()) && SameButFlags(old(m), m) && m == old(m)[pp := old(m)[pp].(p_flags := flags)]
    {
      hide CoreOf, IndexOk;
      FlagsIndex(m, m[pp := m[pp].(p_flags := flags)], jobs, pmaxindex);
      FlagsCore(m, m[pp := m[pp].(p_flags := flags)], proclist, jobs);
      m := m[pp := m[pp].(p_flags := flags)];
    }

    /** All flags of the job of pp, after those that took long have been marked. */
    method Gather(pp: Ptr, slow: set<Ptr>) returns (jobflags: set<Flag>)
      requires Core() && pp in jobs.head
      modifies this`m
      ensures Core() && (old(Numbered()) ==> Numbered()) && SameButFlags(old(m), m)
      ensures jobs.head[pp] in jobs.ring
      ensures forall f :: f in jobflags <==> SomeFlag(m, jobs.ring[jobs.head[pp]], f)
      ensures m == Timed(old(m), slow, jobs.ring[jobs.head[pp]])
    {
      hide CoreOf, IndexOk, Circle, SameButFlags, Timed;
      ghost var c := CircleFrom(m, proclist, jobs, pp);
      SameFlags(m);
      TimedNone(m, slow, c[..0]);
      ghost var n: nat := 0;
      var fp := pp;
      jobflags := {};
      while true
        invariant n < |c| && fp == c[n] && Circle(m, c)
        invariant Core() && (old(Numbered()) ==> Numbered()) && SameButFlags(old(m), m)
        invariant forall f :: f in jobflags <==> SomeFlag(m, c[..n], f)
        invariant m == Timed(old(m), slow, c[..n])
        decreases |c| - n
      {
        CircleAt(m, c, n);
        ghost var m1 := m;
        TimedStep(old(m), m, slow, c, n);
        if m[fp].p_flags * {PPTIME, PRUNNING, PSTOPPED} == {} && fp in slow {
          PutFlags(fp, m[fp].p_flags + {PTIME});
        }
        CircleFlags(m1, m, c);
        FlagsTrans(old(m), m1, m);
        CircleAt(m, c, n);
        GatherStep(m1, m, c, n);
        jobflags := jobflags + m[fp].p_flags;
        fp := m[fp].p_friends;
        n := n + 1;
        if fp == pp {
          break;
        }
      }
      assert c[..n] == c;
      SameMembers(m, c, jobs.ring[jobs.head[pp]]);
      TimedMembers(old(m), slow, c, jobs.ring[jobs.head[pp]]);
    }

    /** A job that has stopped has been reported. */
    method Report(pp: Ptr)
      requires Core() && pp in jobs.head
      modifies this`m
      ensures Core() && (old(Numbered()) ==> Numbered()) && SameButFlags(old(m), m)
      ensures jobs.head[pp] in jobs.ring && m == Reported(old(m), jobs.ring[jobs.head[pp]])
    {
      hide CoreOf, IndexOk, Circle, SameButFlags, Reported;
      ghost var c := CircleFrom(m, proclist, jobs, pp);
      SameFlags(m);
      ReportedNone(m, c[..0]);
      ghost var n: nat := 0;
      var fp := pp;
      while true
        invariant n < |c| && fp == c[n] && Circle(m, c)
        invariant Core() && (old(Numbered()) ==> Numbered()) && SameButFlags(old(m), m)
        invariant m == Reported(old(m), c[..n])
        decreases |c| - n
      {
        CircleAt(m, c, n);
        ghost var m1 := m;
        ReportedStep(old(m), m, c, n);
        if PSTOPPED in m[fp].p_flags {
          PutFlags(fp, m[fp].p_flags + {PREPORTED});
        }
        CircleFlags(m1, m, c);
        FlagsTrans(old(m), m1, m);
        CircleAt(m, c, n);
        fp := m[fp].p_friends;
        n := n + 1;
        if fp == pp {
          break;
        }
      }
      assert c[..n] == c;
      ReportedMembers(old(m), c, jobs.ring[jobs.head[pp]]);
    }

    /** A stopped job becomes the current one, and the current one the previous. */
    method MakeCurrent(fp: Ptr)
      requires Core() && CurrentOk(jobs, pcurrent, pprevious) && fp in jobs.ring
      modifies this`pcurrent, this`pprevious
      ensures CurrentOk(jobs, pcurrent, pprevious) && pcurrent == fp
      ensures pprevious == if old(pcurrent) != 0 && old(pcurrent) != fp then old(pcurrent) else old(pprevious)
    {
      hide CoreOf;
      NotNull(fp);
      if pcurrent != 0 && pcurrent != fp {
        pprevious := pcurrent;
      }
      pcurrent := fp;
    }

    lemma OnePid(pp: Ptr, pid: nat)
      requires Core() && pp in jobs.head && pp < |m| && m[pp].p_pid == pid
      ensures forall p :: IsPid(m, jobs, p, pid) ==> p == pp
      ensures jobs.head[pp] in jobs.ring && !FreshPid(m, jobs, pid)
    {
      LeaderFacts(m, jobs, pp);
    }

    /** The new state of a process, and the flags of its job before it leaves the foreground. */
    method Update(pp: Ptr, status: Status, slow: set<Ptr>) returns (jobflags: set<Flag>)
      requires Core() && pp in jobs.head && pp < |m| && jobs.head[pp] in jobs.ring
      modifies this`m
      ensures Core() && (old(Numbered()) ==> Numbered()) && SameButFlags(old(m), m)
      ensures m == Settled(Timed(Stated(old(m), pp, status), slow, jobs.ring[jobs.head[pp]]), pp)
      ensures forall f :: f in jobflags <==> SomeFlag(Timed(Stated(old(m), pp, status), slow, jobs.ring[jobs.head[pp]]), jobs.ring[jobs.head[pp]], f)
    {
      hide CoreOf, IndexOk, SameButFlags, Timed, SomeFlag;
      ghost var m0 := m;
      InItsRing(pp);
      PutFlags(pp, m[pp].p_flags - {PRUNNING, PSTOPPED, PREPORTED} + StatusFlags(status));
      jobflags := Gather(pp, slow);
      FlagsTrans(m0, Stated(m0, pp, status), m);
      FlagsSize(m0, m);
      ghost var m2 := m;
      PutFlags(pp, m[pp].p_flags - {PFOREGND});
      FlagsTrans(m0, m2, m);
      FlagsSize(m0, m);
      if pp == m[pp].p_friends && PPTIME in m[pp].p_flags {
        ghost var m3 := m;
        PutFlags(pp, m[pp].p_flags - {PPTIME} + {PTIME});
        FlagsTrans(m0, m3, m);
      }
    }

    lemma InItsRing(pp: Ptr)
      requires Core() && pp in jobs.head
      ensures jobs.head[pp] in jobs.ring && pp in jobs.ring[jobs.head[pp]] && jobs.head[pp] < |m|
    {
      LeaderFacts(m, jobs, pp);
    }

    /** One report of the system about a child. Processes in slow have used more time than the shell allows without a
        word; notify is the shell's variable. */
    method PChild(pid: nat, status: Status, slow: set<Ptr>, notify: bool)
      requires Valid() && pid > 0
      modifies this
      ensures Valid() && proclist == old(proclist) && (old(Numbered()) ==> Numbered())
      ensures old(pmaxindex) == 128 ==> pmaxindex == 128
      ensures FreshPid(old(m), old(jobs), pid) ==> m == old(m) && jobs == old(jobs) && pcurrent == old(pcurrent) && pprevious == old(pprevious)
      ensures forall p :: IsPid(old(m), old(jobs), p, pid) ==>
                var l := old(jobs).head[p];
                var r := old(jobs).ring[l];
                var t := Timed(Stated(old(m), p, status), slow, r);
                && (jobs == if Asleep(t, r) && Goes(t, r, notify) then Without(old(jobs), l) else old(jobs))
                && (pcurrjob == if Asleep(t, r) && Goes(t, r, notify) && old(pcurrjob) == l then 0 else old(pcurrjob))
                && ChildDone(t, m, r, l, p, notify)
                && Shifted(t, Reported(Settled(t, p), r), proclist, old(jobs), l, old(pcurrent), old(pprevious), pcurrent, pprevious)
                && (OthersQuiet(old(m), r, p) ==> if status.Stopped? then pcurrent == l else pcurrent != l && pprevious != l)
    {
      hide CoreOf, IndexOk, CurrentOk, Timed, SomeFlag, OthersQuiet, Settled, Reported, Stated;
      var pp := FindPid(pid);
      if pp == 0 {
        return;
      }
      OnePid(pp, pid);
      InItsRing(pp);
      ghost var r := jobs.ring[jobs.head[pp]];
      ghost var t := Timed(Stated(m, pp, status), slow, r);
      QuietJob(m, r, pp, status, slow);
      var jobflags := Update(pp, status, slow);
      if PRUNNING !in jobflags && PREPORTED !in jobflags {
        Report(pp);
        var fp := Leader(pp);
        if PSTOPPED in jobflags {
          MakeCurrent(fp);
        } else {
          PClrCurr(fp);
        }
        Tell(pp, fp, jobflags, notify);
      }
    }

    /** A job that is not in the foreground is removed, or the user is to be told. */
    method Tell(pp: Ptr, fp: Ptr, jobflags: set<Flag>, notify: bool)
      requires Valid() && pp in jobs.head && jobs.head[pp] == fp && fp in jobs.ring && 0 < pp < |m| && fp < |m|
      modifies this
      ensures Valid() && proclist == old(proclist) && (old(Numbered()) ==> Numbered()) && (old(pmaxindex) == 128 ==> pmaxindex == 128)
      ensures PFOREGND !in jobflags && (PNOTIFY in jobflags || notify) && PSTOPPED !in jobflags ==>
                && jobs == Without(old(jobs), fp) && Flagged(old(m), m, old(jobs).ring[fp])
                && pcurrjob == (if old(pcurrjob) == fp then 0 else old(pcurrjob))
                && Cleared(old(m), proclist, old(jobs), fp, old(pcurrent), old(pprevious), pcurrent, pprevious)
      ensures !(PFOREGND !in jobflags && (PNOTIFY in jobflags || notify) && PSTOPPED !in jobflags) ==>
                jobs == old(jobs) && pcurrjob == old(pcurrjob) && pcurrent == old(pcurrent) && pprevious == old(pprevious)
      ensures PFOREGND !in jobflags && PNOTIFY !in jobflags && !notify ==>
                m == old(m)[fp := old(m)[fp].(p_flags := old(m)[fp].p_flags + {PNEEDNOTE})]
      ensures PFOREGND in jobflags || ((PNOTIFY in jobflags || notify) && PSTOPPED in jobflags) ==> m == old(m)
    {
      hide CoreOf, IndexOk, CurrentOk, Flagged, SameButFlags, Without;
      LivePid(pp);
      if PFOREGND !in jobflags {
        if PNOTIFY in jobflags || notify {
          if PSTOPPED !in jobflags {
            PFlush(pp);
          }
        } else {
          PutFlags(fp, m[fp].p_flags + {PNEEDNOTE});
        }
      }
    }

    lemma LivePid(pp: Ptr)
      requires Core() && pp in jobs.head
      ensures pp < |m| && m[pp].p_pid != 0
    {
      LeaderFacts(m, jobs, pp);
    }
  }

  /** The state of process pp is the reported one. */
  ghost function Stated(m: Mem, pp: Ptr, status: Status): (m': Mem)
    requires pp < |m|
    ensures |m'| == |m|
  {
    m[pp := m[pp].(p_flags := m[pp].p_flags - {PRUNNING, PSTOPPED, PREPORTED} + StatusFlags(status))]
  }

  /** The processes of r that are done and took long have been marked. */
  ghost function Timed(m: Mem, slow: set<Ptr>, r: seq<Ptr>): (m': Mem)
    ensures |m'| == |m|
  {
    seq(|m|, z requires 0 <= z < |m| =>
      if z in r && z in slow && m[z].p_flags * {PPTIME, PRUNNING, PSTOPPED} == {} then m[z].(p_flags := m[z].p_flags + {PTIME}) else m[z])
  }

  /** Process pp has left the foreground; alone in its job, it is to be timed if the job was. */
  ghost function Settled(m: Mem, pp: Ptr): Mem
    requires pp < |m|
  {
    var f := m[pp].p_flags - {PFOREGND};
    m[pp := m[pp].(p_flags := if pp == m[pp].p_friends && PPTIME in f then f - {PPTIME} + {PTIME} else f)]
  }

  /** The processes of r that have stopped have been reported. */
  ghost function Reported(m: Mem, r: seq<Ptr>): Mem {
    seq(|m|, z requires 0 <= z < |m| =>
      if z in r && PSTOPPED in m[z].p_flags then m[z].(p_flags := m[z].p_flags + {PREPORTED}) else m[z])
  }

  /** No process of the job is running, and no stop of it was reported. */
  ghost predicate Asleep(t: Mem, r: seq<Ptr>) {
    !SomeFlag(t, r, PRUNNING) && !SomeFlag(t, r, PREPORTED)
  }

  /** The job is over, and the user is told at once. */
  ghost predicate Goes(t: Mem, r: seq<Ptr>, notify: bool) {
    !SomeFlag(t, r, PFOREGND) && (SomeFlag(t, r, PNOTIFY) || notify) && !SomeFlag(t, r, PSTOPPED)
  }

  /** From the memory t with the new states to m', for process pp of job r with leader l. */
  ghost predicate ChildDone(t: Mem, m': Mem, r: seq<Ptr>, l: Ptr, pp: Ptr, notify: bool) {
    && pp < |t| && l < |t|
    && if !Asleep(t, r) then m' == Settled(t, pp)
       else
         var n := Reported(Settled(t, pp), r);
         if Goes(t, r, notify) then Flagged(n, m', r)
         else if !SomeFlag(t, r, PFOREGND) && !SomeFlag(t, r, PNOTIFY) && !notify
           then m' == n[l := n[l].(p_flags := n[l].p_flags + {PNEEDNOTE})]
         else m' == n
  }

  /** A stopped job becomes the current one; one that is over is neither current nor previous. */
  ghost predicate Shifted(t: Mem, n: Mem, list: seq<Ptr>, jobs: Jobs, l: Ptr, pcurrent: Ptr, pprevious: Ptr, pcurrent': Ptr, pprevious': Ptr)
    requires l in jobs.ring
  {
    var r := jobs.ring[l];
    if !Asleep(t, r) then pcurrent' == pcurrent && pprevious' == pprevious
    else if SomeFlag(t, r, PSTOPPED)
      then pcurrent' == l && pprevious' == if pcurrent != 0 && pcurrent != l then pcurrent else pprevious
    else Cleared(n, list, jobs, l, pcurrent, pprevious, pcurrent', pprevious')
  }

  /** Job l is neither current nor previous any more: the previous job moves up, and a free place goes to the latest
      other job. */
  ghost predicate Cleared(m: Mem, list: seq<Ptr>, jobs: Jobs, l: Ptr, pcurrent: Ptr, pprevious: Ptr, pcurrent': Ptr, pprevious': Ptr) {
    && pcurrent' != l && pprevious' != l
    && pcurrent' == (if pcurrent != l then pcurrent else if pprevious != 0 then pprevious else Latest(m, list, jobs, l, l))
    && pprevious' == (if pcurrent != l && pprevious != l then pprevious else Latest(m, list, jobs, l, pcurrent'))
  }

  ghost function Others(jobs: Jobs, a: Ptr, b: Ptr): set<Ptr> {
    jobs.ring.Keys - {a, b}
  }

  ghost function StoppedOf(m: Mem, s: set<Ptr>): set<Ptr> {
    set l | l in s && HasFlag(m, l, PSTOPPED)
  }

  ghost function FirstIn(list: seq<Ptr>, s: set<Ptr>): Ptr {
    if list == [] then 0 else if list[0] in s then list[0] else FirstIn(list[1..], s)
  }

  /** The job other than a and b that was started last, among the stopped ones if there are any; 0 if there is no other. */
  ghost function Latest(m: Mem, list: seq<Ptr>, jobs: Jobs, a: Ptr, b: Ptr): Ptr {
    var s := Others(jobs, a, b);
    FirstIn(list, if StoppedOf(m, s) != {} then StoppedOf(m, s) else s)
  }

  lemma {:induction false} FirstInNone(list: seq<Ptr>, s: set<Ptr>)
    requires forall p :: p in list ==> p !in s
    ensures FirstIn(list, s) == 0
  {
    if list != [] {
      FirstInNone(list[1..], s);
    }
  }

  lemma {:induction false} FirstInAt(list: seq<Ptr>, s: set<Ptr>, i: nat)
    requires i < |list| && list[i] in s && forall j :: 0 <= j < i ==> list[j] !in s
    ensures FirstIn(list, s) == list[i]
  {
    if i > 0 {
      FirstInAt(list[1..], s, i - 1);
    }
  }

  lemma TimedNone(m: Mem, slow: set<Ptr>, r: seq<Ptr>)
    requires r == []
    ensures Timed(m, slow, r) == m
  {
  }

  lemma TimedMembers(m: Mem, slow: set<Ptr>, c: seq<Ptr>, r: seq<Ptr>)
    requires forall q :: q in c <==> q in r
    ensures Timed(m, slow, c) == Timed(m, slow, r)
  {
  }

  lemma TimedStep(m0: Mem, m: Mem, slow: set<Ptr>, c: seq<Ptr>, n: nat)
    requires n < |c| && m == Timed(m0, slow, c[..n]) && c[n] < |m| && forall k :: 0 <= k < |c| && k != n ==> c[k] != c[n]
    ensures Timed(m0, slow, c[..n + 1])
         == if m[c[n]].p_flags * {PPTIME, PRUNNING, PSTOPPED} == {} && c[n] in slow
            then m[c[n] := m[c[n]].(p_flags := m[c[n]].p_flags + {PTIME})] else m
  {
    assert c[..n + 1] == c[..n] + [c[n]];
    assert c[n] !in c[..n];
  }

  lemma ReportedNone(m: Mem, r: seq<Ptr>)
    requires r == []
    ensures Reported(m, r) == m
  {
  }

  lemma ReportedMembers(m: Mem, c: seq<Ptr>, r: seq<Ptr>)
    requires forall q :: q in c <==> q in r
    ensures Reported(m, c) == Reported(m, r)
  {
  }

  lemma ReportedStep(m0: Mem, m: Mem, c: seq<Ptr>, n: nat)
    requires n < |c| && m == Reported(m0, c[..n]) && c[n] < |m| && forall k :: 0 <= k < |c| && k != n ==> c[k] != c[n]
    ensures Reported(m0, c[..n + 1])
         == if PSTOPPED in m[c[n]].p_flags then m[c[n] := m[c[n]].(p_flags := m[c[n]].p_flags + {PREPORTED})] else m
  {
    assert c[..n + 1] == c[..n] + [c[n]];
    assert c[n] !in c[..n];
  }

  ghost predicate IsPid(m: Mem, jobs: Jobs, p: Ptr, pid: nat) {
    p in jobs.head && p < |m| && m[p].p_pid == pid && jobs.head[p] in jobs.ring
  }

  /** The other processes of the job are neither running nor stopped. */
  ghost predicate OthersQuiet(m: Mem, r: seq<Ptr>, p: Ptr) {
    forall q :: q in r && q != p && q < |m| ==> m[q].p_flags * {PRUNNING, PREPORTED, PSTOPPED} == {}
  }

  datatype Status = Stopped | Signaled(interrupt: bool, dumped: bool) | Exited(retcode: int)

  function StatusFlags(status: Status): set<Flag> {
    match status
    case Stopped => {PSTOPPED}
    case Signaled(interrupt, dumped) => (if interrupt then {PINTERRUPTED} else {PSIGNALED}) + (if dumped then {PDUMPED} else {})
    case Exited(retcode) => if retcode != 0 then {PAEXITED} else {PNEXITED}
  }

  ghost predicate HasFlag(m: Mem, p: Ptr, f: Flag) {
    p < |m| && f in m[p].p_flags
  }

  ghost predicate SomeFlag(m: Mem, s: seq<Ptr>, f: Flag) {
    exists p :: p in s && HasFlag(m, p, f)
  }

  lemma FlagsSize(m: Mem, m': Mem)
    requires SameButFlags(m, m')
    ensures |m'| == |m|
  {
  }

  /** The report about the last process of a job that was not quiet decides what the job is. */
  lemma QuietJob(m: Mem, r: seq<Ptr>, pp: Ptr, status: Status, slow: set<Ptr>)
    requires pp < |m| && pp in r
    ensures var t := Timed(Stated(m, pp, status), slow, r);
            OthersQuiet(m, r, pp) ==> Asleep(t, r) && (SomeFlag(t, r, PSTOPPED) <==> status.Stopped?)
  {
    var t := Timed(Stated(m, pp, status), slow, r);
    if status.Stopped? {
      assert HasFlag(t, pp, PSTOPPED);
    }
    if OthersQuiet(m, r, pp) {
      forall q, f | q in r && HasFlag(t, q, f) && f in {PRUNNING, PREPORTED, PSTOPPED} ensures f == PSTOPPED && status.Stopped? {
        QuietFlag(m, Stated(m, pp, status), t, r, pp, status, q, f);
      }
    }
  }

  /** What the flags of a process say after a report: how it ended or that it stopped, and not that it runs. */
  lemma StateTold(m: Mem, m': Mem, r: seq<Ptr>, l: Ptr, pp: Ptr, status: Status, slow: set<Ptr>, notify: bool)
    requires pp < |m| && ChildDone(Timed(Stated(m, pp, status), slow, r), m', r, l, pp, notify)
    ensures |m'| == |m| && PRUNNING !in m'[pp].p_flags
    ensures PNEXITED in m'[pp].p_flags <==> PNEXITED in m[pp].p_flags || status == Exited(0)
    ensures PAEXITED in m'[pp].p_flags <==> PAEXITED in m[pp].p_flags || (status.Exited? && status.retcode != 0)
    ensures PINTERRUPTED in m'[pp].p_flags <==> PINTERRUPTED in m[pp].p_flags || (status.Signaled? && status.interrupt)
    ensures PSIGNALED in m'[pp].p_flags <==> PSIGNALED in m[pp].p_flags || (status.Signaled? && !status.interrupt)
    ensures PDUMPED in m'[pp].p_flags <==> PDUMPED in m[pp].p_flags || (status.Signaled? && status.dumped)
    ensures PSTOPPED in m'[pp].p_flags <==> status.Stopped?
  {
    hide Asleep, Goes, SomeFlag, Stated, Timed, StatusFlags, Settled, Reported;
    var t := Timed(Stated(m, pp, status), slow, r);
    TellsState(m, pp, status);
    TimedState(Stated(m, pp, status), slow, r, pp);
    var n := Settled(t, pp);
    SettledState(t, pp);
    if Asleep(t, r) {
      ReportedState(n, r, pp);
    }
  }

  /** The flags that neither time nor notes nor the foreground change. */
  predicate SameState(a: set<Flag>, b: set<Flag>) {
    forall f :: f in {PRUNNING, PSTOPPED, PNEXITED, PAEXITED, PSIGNALED, PINTERRUPTED, PDUMPED} ==> (f in a <==> f in b)
  }

  lemma TellsState(m: Mem, pp: Ptr, status: Status)
    requires pp < |m|
    ensures var a, b := m[pp].p_flags, Stated(m, pp, status)[pp].p_flags;
            && PRUNNING !in b && (PSTOPPED in b <==> status.Stopped?)
            && (PNEXITED in b <==> PNEXITED in a || status == Exited(0))
            && (PAEXITED in b <==> PAEXITED in a || (status.Exited? && status.retcode != 0))
            && (PINTERRUPTED in b <==> PINTERRUPTED in a || (status.Signaled? && status.interrupt))
            && (PSIGNALED in b <==> PSIGNALED in a || (status.Signaled? && !status.interrupt))
            && (PDUMPED in b <==> PDUMPED in a || (status.Signaled? && status.dumped))
  {
  }

  lemma TimedState(m: Mem, slow: set<Ptr>, r: seq<Ptr>, pp: Ptr)
    requires pp < |m|
    ensures SameState(Timed(m, slow, r)[pp].p_flags, m[pp].p_flags)
  {
  }

  lemma SettledState(m: Mem, pp: Ptr)
    requires pp < |m|
    ensures |Settled(m, pp)| == |m| && SameState(Settled(m, pp)[pp].p_flags, m[pp].p_flags)
  {
  }

  lemma ReportedState(m: Mem, r: seq<Ptr>, pp: Ptr)
    requires pp < |m|
    ensures |Reported(m, r)| == |m| && SameState(Reported(m, r)[pp].p_flags, m[pp].p_flags)
  {
  }

  lemma QuietFlag(m0: Mem, m1: Mem, m2: Mem, r: seq<Ptr>, pp: Ptr, status: Status, q: Ptr, f: Flag)
    requires pp < |m0| && m1 == m0[pp := m0[pp].(p_flags := m0[pp].p_flags - {PRUNNING, PSTOPPED, PREPORTED} + StatusFlags(status))]
    requires OnlyTimes(m1, m2) && OthersQuiet(m0, r, pp) && q in r && HasFlag(m2, q, f) && f in {PRUNNING, PREPORTED, PSTOPPED}
    ensures f == PSTOPPED && status.Stopped?
  {
    if q != pp {
      QuietOther(m0, r, pp, q);
    }
  }

  lemma QuietOther(m: Mem, r: seq<Ptr>, pp: Ptr, q: Ptr)
    requires OthersQuiet(m, r, pp) && q in r && q != pp && q < |m|
    ensures PRUNNING !in m[q].p_flags && PREPORTED !in m[q].p_flags && PSTOPPED !in m[q].p_flags
  {
    assert PRUNNING !in m[q].p_flags * {PRUNNING, PREPORTED, PSTOPPED};
    assert PREPORTED !in m[q].p_flags * {PRUNNING, PREPORTED, PSTOPPED};
    assert PSTOPPED !in m[q].p_flags * {PRUNNING, PREPORTED, PSTOPPED};
  }

  /** Times have been marked, and nothing else. */
  ghost predicate OnlyTimes(m: Mem, m': Mem) {
    |m'| == |m| && forall z :: 0 <= z < |m| ==> m'[z].p_flags == m[z].p_flags || m'[z].p_flags == m[z].p_flags + {PTIME}
  }

  lemma SameMembers(m: Mem, c: seq<Ptr>, r: seq<Ptr>)
    requires forall q :: q in c <==> q in r
    ensures forall f :: SomeFlag(m, c, f) <==> SomeFlag(m, r, f)
  {
  }

  /** Only the flags of process n of the circle have changed. */
  lemma GatherStep(m: Mem, m': Mem, c: seq<Ptr>, n: nat)
    requires n < |c| && c[n] < |m| && |m'| == |m| && (forall k :: 0 <= k < |c| && k != n ==> c[k] != c[n])
    requires forall z :: 0 <= z < |m| && z != c[n] ==> m'[z] == m[z]
    ensures forall f :: SomeFlag(m', c[..n + 1], f) <==> SomeFlag(m, c[..n], f) || f in m'[c[n]].p_flags
  {
    assert c[..n + 1] == c[..n] + [c[n]];
    forall f ensures SomeFlag(m', c[..n + 1], f) <==> SomeFlag(m, c[..n], f) || f in m'[c[n]].p_flags {
      if SomeFlag(m, c[..n], f) {
        var p :| p in c[..n] && HasFlag(m, p, f);
        assert HasFlag(m', p, f) && p in c[..n + 1];
      }
      if f in m'[c[n]].p_flags {
        assert HasFlag(m', c[n], f) && c[n] in c[..n + 1];
      }
    }
  }

  /** The processes that the friends links lead through, from the first back to the first. */
  ghost predicate Circle(m: Mem, c: seq<Ptr>) {
    && Distinct(c) && (forall i :: 0 <= i < |c| ==> 0 < c[i] < |m|)
    && (forall i :: 0 <= i < |c| ==> m[c[i]].p_friends == After(c, i))
  }

  lemma CircleAt(m: Mem, c: seq<Ptr>, n: nat)
    requires Circle(m, c) && n < |c|
    ensures 0 < c[n] < |m| && m[c[n]].p_friends == After(c, n) && (After(c, n) == c[0] <==> n + 1 == |c|)
    ensures forall k :: 0 <= k < |c| && k != n ==> c[k] != c[n]
  {
    assert forall k :: 0 < k < |c| ==> c[k] != c[0];
  }

  lemma SameFlags(m: Mem)
    ensures SameButFlags(m, m)
  {
  }

  lemma FlagsTrans(m: Mem, m1: Mem, m2: Mem)
    requires SameButFlags(m, m1) && (m2 == m1 || SameButFlags(m1, m2))
    ensures SameButFlags(m, m2)
  {
  }

  lemma CircleFlags(m: Mem, m': Mem, c: seq<Ptr>)
    requires Circle(m, c) && (m' == m || SameButFlags(m, m'))
    ensures Circle(m', c)
  {
  }

  lemma FlagsCore(m: Mem, m': Mem, list: seq<Ptr>, jobs: Jobs)
    requires SameButFlags(m, m') && CoreOf(m, list, jobs)
    ensures CoreOf(m', list, jobs)
  {
    hide JobsOk, Different, ListOk;
    FlagsJobs(m, m', jobs);
    FlagsRest(m, m', jobs, list);
  }

  /** The ring of a live process, from that process on. */
  lemma CircleFrom(m: Mem, list: seq<Ptr>, jobs: Jobs, p: Ptr) returns (c: seq<Ptr>)
    requires CoreOf(m, list, jobs) && p in jobs.head
    ensures jobs.head[p] in jobs.ring && c != [] && c[0] == p && Circle(m, c)
    ensures forall q :: q in c <==> q in jobs.ring[jobs.head[p]]
  {
    LeaderFacts(m, jobs, p);
    var r := jobs.ring[jobs.head[p]];
    var i :| 0 <= i < |r| && r[i] == p;
    c := r[i..] + r[..i];
    RotatedCircle(m, jobs.head[p], r, i);
  }

  lemma RotatedCircle(m: Mem, l: Ptr, r: seq<Ptr>, i: nat)
    requires RingOk(m, l, r) && i < |r|
    ensures Circle(m, r[i..] + r[..i]) && forall q :: q in r[i..] + r[..i] <==> q in r
  {
    hide After;
    var c := r[i..] + r[..i];
    assert r == r[..i] + r[i..];
    RotatedDistinct(r, i);
    forall k | 0 <= k < |c| ensures 0 < c[k] < |m| && m[c[k]].p_friends == After(c, k) {
      RotatedAfter(r, i, k);
    }
  }

  lemma RotatedDistinct(r: seq<Ptr>, i: nat)
    requires Distinct(r) && i < |r|
    ensures Distinct(r[i..] + r[..i])
  {
    var c := r[i..] + r[..i];
    forall j, k | 0 <= j < k < |c| ensures c[j] != c[k] {
      var x, y := if j < |r| - i then i + j else j - (|r| - i), if k < |r| - i then i + k else k - (|r| - i);
      assert c[j] == r[x] && c[k] == r[y] && x != y;
    }
  }

  lemma RotatedAfter(r: seq<Ptr>, i: nat, k: nat)
    requires i < |r| && k < |r|
    ensures var x := if k < |r| - i then i + k else k - (|r| - i);
            (r[i..] + r[..i])[k] == r[x] && After(r[i..] + r[..i], k) == After(r, x)
  {
  }

  lemma StartLiving(m: Mem, list: seq<Ptr>)
    ensures Living(m, list) == list[..0] + Living(m, list[0..])
  {
    assert list[0..] == list;
  }

  lemma LivingStep(m: Mem, list: seq<Ptr>, i: nat)
    requires i < |list| && list[i] < |m|
    ensures m[list[i]].p_pid != 0 ==> list[..i] + Living(m, list[i..]) == list[..i + 1] + Living(m, list[i + 1..])
    ensures m[list[i]].p_pid == 0 ==>
              var s := list[..i] + list[i + 1..];
              |s| == |list| - 1 && list[..i] + Living(m, list[i..]) == s[..i] + Living(m, s[i..])
  {
    hide Living;
    LivingHead(m, list[i..]);
    Cut(list, i);
    if m[list[i]].p_pid != 0 {
      Onward(list, i, Living(m, list[i + 1..]));
    }
  }

  lemma Cut(list: seq<Ptr>, i: nat)
    requires i < |list|
    ensures list[i..] != [] && list[i..][0] == list[i] && list[i..][1..] == list[i + 1..]
    ensures var s := list[..i] + list[i + 1..];
            |s| == |list| - 1 && s[..i] == list[..i] && s[i..] == list[i + 1..]
  {
  }

  lemma Onward(list: seq<Ptr>, i: nat, rest: seq<Ptr>)
    requires i < |list|
    ensures list[..i] + ([list[i]] + rest) == list[..i + 1] + rest
  {
    assert list[..i + 1] == list[..i] + [list[i]];
  }

  lemma LivingHead(m: Mem, list: seq<Ptr>)
    requires list != [] && list[0] < |m|
    ensures Living(m, list) == if m[list[0]].p_pid != 0 then [list[0]] + Living(m, list[1..]) else Living(m, list[1..])
  {
  }

  lemma ReapedCore(m: Mem, list: seq<Ptr>, jobs: Jobs)
    requires CoreOf(m, list, jobs)
    ensures CoreOf(m, Living(m, list), jobs) && forall p :: p in Living(m, list) <==> p in jobs.head
  {
    ReapedList(m, list, jobs);
  }

  lemma LastOfRing(m: Mem, l: Ptr, r: seq<Ptr>, i: nat)
    requires RingOk(m, l, r) && i < |r| && After(r, i) == l
    ensures i == |r| - 1
  {
    assert r[0] == l && forall k :: 0 < k < |r| ==> r[k] != r[0];
  }

  // ---- the index of a new job ----

  /** The index that palloc chooses. */
  ghost predicate Chosen(m: Mem, jobs: Jobs, pmaxindex: int, index: int) {
    if pmaxindex < BIGINDEX then index == pmaxindex + 1
    else FreshIndex(m, jobs, index) && forall k :: 0 < k < index ==> !FreshIndex(m, jobs, k)
  }

  /** The new job at the end of memory has the chosen index, as far as it fits. */
  ghost predicate IndexGiven(m: Mem, jobs: Jobs, pmaxindex: int, m': Mem, pmaxindex': int) {
    |m| < |m'| && exists index :: Chosen(m, jobs, pmaxindex, index) && Kept(m'[|m|], pmaxindex, index, pmaxindex')
  }

  ghost predicate Kept(p: Process, pmaxindex: int, index: int, pmaxindex': int) {
    0 < index <= 128 && p.p_index == Stored(index) && pmaxindex' == if index > pmaxindex then index else pmaxindex
  }

  lemma ChosenFresh(m: Mem, jobs: Jobs, pmaxindex: int, index: int)
    requires MaxIndex(m, jobs, pmaxindex) && Chosen(m, jobs, pmaxindex, index) && index > 0
    ensures FreshIndex(m, jobs, index)
  {
  }

  /** The indices in use. */
  ghost function Indices(m: Mem, ls: set<Ptr>): set<int> {
    set l | l in ls && l < |m| :: m[l].p_index as int
  }

  ghost function UpTo(n: nat): set<int> {
    if n == 0 then {} else UpTo(n - 1) + {n}
  }

  lemma {:induction false} UpToSize(n: nat)
    ensures |UpTo(n)| == n && forall k: int :: k in UpTo(n) <==> 1 <= k <= n
  {
    if n > 0 {
      UpToSize(n - 1);
    }
  }

  lemma {:induction false} IndicesSize(m: Mem, ls: set<Ptr>)
    requires forall l :: l in ls ==> l < |m|
    requires forall k, l :: k in ls && l in ls && k != l ==> m[k].p_index != m[l].p_index
    ensures |Indices(m, ls)| == |ls|
    decreases ls
  {
    if x :| x in ls {
      IndicesSize(m, ls - {x});
      assert Indices(m, ls) == Indices(m, ls - {x}) + {m[x].p_index as int} by {
        assert forall y :: y in ls <==> y == x || y in ls - {x};
      }
    } else {
      assert Indices(m, ls) == {};
    }
  }

  lemma {:induction false} SubsetSize<T>(A: set<T>, B: set<T>)
    requires A <= B
    ensures |A| <= |B| && (|A| == |B| ==> A == B)
    decreases A
  {
    if A != {} {
      var x :| x in A;
      SubsetSize(A - {x}, B - {x});
      assert A == A - {x} + {x} && B == B - {x} + {x};
    }
  }

  /** An index that fits is free exactly when there are fewer than 127 jobs. */
  lemma RoomIff(m: Mem, jobs: Jobs, pmaxindex: int, index: int)
    requires (forall l :: l in jobs.ring ==> l < |m|) && IndexOk(m, jobs, pmaxindex)
    requires Chosen(m, jobs, pmaxindex, index) && 0 < index <= 128
    ensures index <= 127 <==> |jobs.ring.Keys| < 127
  {
    var ls := jobs.ring.Keys;
    var used := Indices(m, ls);
    IndicesSize(m, ls);
    ChosenFresh(m, jobs, pmaxindex, index);
    UpToSize(127);
    if index <= 127 {
      assert index !in used && index in UpTo(127);
      SubsetSize(used, UpTo(127));
    } else {
      HighIndex(m, jobs, pmaxindex, index);
      SubsetSize(UpTo(127), used);
    }
  }

  /** When 128 is chosen, all smaller indices are in use. */
  lemma HighIndex(m: Mem, jobs: Jobs, pmaxindex: int, index: int)
    requires Chosen(m, jobs, pmaxindex, index) && index == 128 && forall l :: l in jobs.ring ==> l < |m|
    ensures UpTo(127) <= Indices(m, jobs.ring.Keys)
  {
    UpToSize(127);
    forall k | k in UpTo(127) ensures k in Indices(m, jobs.ring.Keys) {
      assert !FreshIndex(m, jobs, k);
      var l :| l in jobs.ring && l < |m| && m[l].p_index == k;
    }
  }

  /** After a job has been added, the indices are as they should be exactly when there were fewer than 127 jobs. */
  lemma NewJobIndex(m: Mem, list: seq<Ptr>, jobs: Jobs, p: Process, max: int, index: int, max': int)
    requires CoreOf(m, list, jobs) && 0 < index <= 128 && Chosen(m, jobs, max, index) && p.p_index == Stored(index)
    requires max' == if index > max then index else max
    ensures IndexOk(m, jobs, max) ==>
              (IndexOk(m + [p], WithJob(jobs, |m|), max') <==> |jobs.ring.Keys| < 127)
  {
    hide Different, ListOk, Chosen, FreshIndex, RingOk;
    forall k | k in jobs.ring ensures k < |m| {
      LeaderIn(m, jobs, k);
    }
    if IndexOk(m, jobs, max) {
      RoomIff(m, jobs, max, index);
      ChosenFresh(m, jobs, max, index);
      StoredIndex(m, jobs, p, max, index, max');
    }
  }

  lemma StoredIndex(m: Mem, jobs: Jobs, p: Process, max: int, index: int, max': int)
    requires (forall l :: l in jobs.ring ==> l < |m|) && IndexOk(m, jobs, max) && FreshIndex(m, jobs, index) && 0 < index <= 128
    requires p.p_index == Stored(index) && max' == if index > max then index else max
    ensures IndexOk(m + [p], WithJob(jobs, |m|), max') <==> index <= 127
  {
    hide IndexOk, FreshIndex;
    if index <= 127 {
      FittingIndex(m, jobs, p, max, max');
    } else {
      HighStored(m, jobs, p, max');
    }
  }

  lemma HighStored(m: Mem, jobs: Jobs, p: Process, max': int)
    requires p.p_index <= 0
    ensures !IndexOk(m + [p], WithJob(jobs, |m|), max')
  {
    assert (m + [p])[|m|] == p && |m| in WithJob(jobs, |m|).ring;
  }

  lemma FittingIndex(m: Mem, jobs: Jobs, p: Process, max: int, max': int)
    requires (forall l :: l in jobs.ring ==> l < |m|) && IndexOk(m, jobs, max) && FreshIndex(m, jobs, p.p_index)
    requires max' == if p.p_index > max then p.p_index else max
    ensures IndexOk(m + [p], WithJob(jobs, |m|), max')
  {
    var m', jobs' := m + [p], WithJob(jobs, |m|);
    assert m'[|m|] == p && |m| in jobs'.ring;
    assert forall k :: k in jobs'.ring <==> k in jobs.ring || k == |m|;
    if max > 0 {
      var l :| l in jobs.ring && l < |m| && m[l].p_index == max;
      assert m'[l].p_index == max && l in jobs'.ring;
    }
  }

  // ---- too many jobs ----

  /** n jobs of one process each, with indices 1 to n. */
  ghost function FullMem(n: nat): Mem
    requires n <= 127
  {
    seq(n + 1, k requires 0 <= k <= n => if k == 0 then Process(0, {}, 0, 0, 0) else Process(k, {PRUNNING}, k, k, k))
  }

  ghost function FullJobs(n: nat): Jobs {
    Jobs(map k: nat | k in UpTo(n) :: [k], map k: nat | k in UpTo(n) :: k)
  }

  ghost function FullList(n: nat): seq<Ptr> {
    seq(n, k requires 0 <= k < n => k + 1)
  }

  /** When there are 127 jobs, two more get the same index, and it is not even positive. */
  lemma TwoJobsOneIndex(n: nat, p: Process, q: Process)
    requires n == 127 && p.p_index == q.p_index == Stored(128)
    ensures CoreOf(FullMem(n), FullList(n), FullJobs(n)) && IndexOk(FullMem(n), FullJobs(n), n) && |FullJobs(n).ring.Keys| == n
    ensures Chosen(FullMem(n), FullJobs(n), n, 128)
    ensures Chosen(FullMem(n) + [p], WithJob(FullJobs(n), 128), 128, 128)
    ensures (FullMem(n) + [p] + [q])[128].p_index == (FullMem(n) + [p] + [q])[129].p_index == -128
  {
    hide CoreOf, IndexOk, Chosen, UpTo;
    UpToSize(n);
    FullTable(n);
    FullChosen(FullMem(n), FullJobs(n), 127);
    FullChosen(FullMem(n) + [p], WithJob(FullJobs(n), 128), 128);
  }

  lemma FullTable(n: nat)
    requires n <= 127
    ensures CoreOf(FullMem(n), FullList(n), FullJobs(n)) && IndexOk(FullMem(n), FullJobs(n), n) && |FullJobs(n).ring.Keys| == n
  {
    hide JobsOk, Different, ListOk, FullMem, FullJobs, FullList;
    FullRings(n);
    FullPids(n);
    FullKeys(n);
  }

  lemma FullRings(n: nat)
    requires n <= 127
    ensures JobsOk(FullMem(n), FullJobs(n))
  {
    hide UpTo;
    UpToSize(n);
  }

  lemma FullPids(n: nat)
    requires n <= 127
    ensures |FullMem(n)| > 0 && Different(FullMem(n), FullJobs(n)) && IndexOk(FullMem(n), FullJobs(n), n)
    ensures ListOk(FullMem(n), FullList(n), FullJobs(n))
  {
    hide UpTo;
    UpToSize(n);
    if n > 0 {
      assert FullMem(n)[n].p_index == n && n in FullJobs(n).ring;
    }
    hide IndexOk, Different;
    FullListed(n);
  }

  lemma FullListed(n: nat)
    requires n <= 127
    ensures ListOk(FullMem(n), FullList(n), FullJobs(n))
  {
    hide UpTo;
    UpToSize(n);
    var list := FullList(n);
    forall p | p in FullJobs(n).head ensures p in list {
      assert list[p - 1] == p;
    }
  }

  lemma FullKeys(n: nat)
    ensures |FullJobs(n).ring.Keys| == n
    decreases n
  {
    hide UpTo;
    UpToSize(n);
    if n == 0 {
      assert FullJobs(n).ring.Keys == {};
    } else {
      UpToSize(n - 1);
      FullKeys(n - 1);
      assert FullJobs(n).ring.Keys == FullJobs(n - 1).ring.Keys + {n};
    }
  }

  lemma FullChosen(m: Mem, jobs: Jobs, max: int)
    requires BIGINDEX <= max && |m| >= 128 && (forall k :: 0 < k <= 127 ==> k in jobs.ring && m[k].p_index == k)
    ensures Chosen(m, jobs, max, 128)
  {
    forall k | 0 < k < 128 ensures !FreshIndex(m, jobs, k) {
      assert k in jobs.ring && m[k].p_index == k;
    }
  }

  lemma NewJobAll(m: Mem, m': Mem, list: seq<Ptr>, list': seq<Ptr>, jobs: Jobs, p: Process)
    requires p.p_friends == |m| && p.p_jobid == p.p_pid && FreshPid(m, jobs, p.p_pid)
    requires m' == m + [p] && list' == [|m|] + list
    requires CoreOf(m, list, jobs)
    ensures |m| !in jobs.ring && CoreOf(m', list', WithJob(jobs, |m|))
  {
    hide JobsOk, Different, ListOk, WithJob;
    NewJobJobs(m, jobs, p);
    NewJobRest(m, jobs, list, p);
  }

  lemma JoinedAll(m: Mem, m': Mem, list: seq<Ptr>, list': seq<Ptr>, jobs: Jobs, l: Ptr, p: Process, pmaxindex: int)
    requires l in jobs.ring && RingOk(m, l, jobs.ring[l]) && Joined(m, m', l, jobs.ring[l], p) && list' == [|m|] + list
    requires FreshPid(m, jobs, p.p_pid) && CoreOf(m, list, jobs)
    ensures CoreOf(m', list', WithFriend(jobs, l, |m|))
    ensures IndexOk(m, jobs, pmaxindex) <==> IndexOk(m', WithFriend(jobs, l, |m|), pmaxindex)
  {
    hide JobsOk, Different, ListOk, IndexOk, RingOk, Joined, WithFriend;
    JoinedOneMore(m, m', l, jobs.ring[l], p);
    JoinedJobs(m, m', jobs, l, p);
    JoinedDifferent(m, m', jobs, l, p);
    JoinedList(m, m', jobs, list, l, p);
    JoinedIndex(m, m', jobs, l, p, pmaxindex);
  }

  lemma CurrentWithFriend(jobs: Jobs, l: Ptr, p: Ptr, pcurrent: Ptr, pprevious: Ptr)
    requires l in jobs.ring && CurrentOk(jobs, pcurrent, pprevious)
    ensures CurrentOk(WithFriend(jobs, l, p), pcurrent, pprevious) && l in WithFriend(jobs, l, p).ring
  {
  }

  lemma PositivePid(m: Mem, jobs: Jobs, pid: nat)
    requires FreshPid(m, jobs, pid)
    ensures pid > 0
  {
  }

  lemma WithoutRings(jobs: Jobs, l: Ptr)
    ensures forall k :: k in jobs.ring && k != l ==> k in Without(jobs, l).ring
  {
  }

  lemma CurrentWithout(jobs: Jobs, pcurrent: Ptr, pprevious: Ptr, l: Ptr)
    requires CurrentOk(jobs, pcurrent, pprevious) && pcurrent != l && pprevious != l
    ensures CurrentOk(Without(jobs, l), pcurrent, pprevious)
  {
  }

  ghost predicate CoreOf(m: Mem, list: seq<Ptr>, jobs: Jobs) {
    |m| > 0 && JobsOk(m, jobs) && Different(m, jobs) && ListOk(m, list, jobs)
  }

  lemma FlaggedCore(m: Mem, m': Mem, jobs: Jobs, l: Ptr, list: seq<Ptr>)
    requires CoreOf(m, list, jobs) && l in jobs.ring && Flagged(m, m', jobs.ring[l])
    ensures CoreOf(m', list, Without(jobs, l))
  {
    hide JobsOk, Different, ListOk;
    FlaggedJobs(m, m', jobs, l);
    FlaggedDifferent(m, m', jobs, l);
    FlaggedList(m, m', jobs, l, list);
    FlaggedSize(m, m', jobs.ring[l]);
  }

  lemma FlaggedSize(m: Mem, m': Mem, r: seq<Ptr>)
    requires Flagged(m, m', r)
    ensures |m'| == |m|
  {
  }

  lemma FlaggedIndex(m: Mem, m': Mem, list: seq<Ptr>, jobs: Jobs, l: Ptr, max: int, max': int)
    requires CoreOf(m, list, jobs) && l in jobs.ring && l < |m| && Flagged(m, m', jobs.ring[l])
    requires if m[l].p_index == max then MaxIndex(m', Without(jobs, l), max') else max' == max
    ensures IndexOk(m, jobs, max) ==> IndexOk(m', Without(jobs, l), max')
  {
    hide RingOk;
    forall k | k in jobs.ring ensures k < |m| && m'[k] == if k == l then Dead(m[k]) else m[k] {
      LeaderIn(m, jobs, k);
      FlaggedLive(m, m', jobs, l, k);
    }
    FlaggedSize(m, m', jobs.ring[l]);
  }

  lemma FlagNone(m: Mem, r: seq<Ptr>)
    ensures Flagged(m, m, r[..0])
  {
  }

  lemma FlagStep(m0: Mem, m: Mem, l: Ptr, r: seq<Ptr>, i: nat)
    requires i < |r| && Flagged(m0, m, r[..i]) && RingOk(m0, l, r)
    ensures r[i] < |m| && Flagged(m0, m[r[i] := Dead(m[r[i]])], r[..i + 1])
    ensures Dead(m[r[i]]).p_friends == After(r, i)
    ensures After(r, i) == l <==> i + 1 == |r|
  {
    NotYet(r, i);
  }

  lemma NotYet(r: seq<Ptr>, i: nat)
    requires Distinct(r) && i < |r|
    ensures r[i] !in r[..i] && r[..i + 1] == r[..i] + [r[i]]
  {
  }
}
