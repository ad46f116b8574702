/**
 The online tracker (internal/xray/process.go): emails and inbound tags stay listed for a grace
 period after their last traffic, and each client's session is attributed to one inbound tag.
 */
module OnlineTracker {
  import opened Prelude
  import opened Text

  /** One call of RefreshLocalOnline. */
  datatype Call = Call(emails: seq<string>, tags: seq<string>, sessions: map<string, string>, now: Int64)

  datatype State = State(
    lastOnline: map<string, Int64>, sessionTag: map<string, string>, sessionAt: map<string, Int64>,
    lastActive: map<string, Int64>)

  const Empty := State(map[], map[], map[], map[])

  // ---- one call on values ---------------------------------------------------------

  function Touched(m: map<string, Int64>, keys: seq<string>, now: Int64): map<string, Int64> {
    map k | k in m.Keys + (set x | x in keys) :: if k in keys then now else m[k]
  }

  function Within(m: map<string, Int64>, now: Int64, grace: Int64): map<string, Int64> {
    map k | k in m && now - m[k] < grace :: m[k]
  }

  /** Attributions with a blank email or tag are ignored. */
  predicate Attributes(sessions: map<string, string>, e: string) {
    e in sessions && e != "" && sessions[e] != ""
  }

  function Attributed(m: map<string, string>, sessions: map<string, string>, online: set<string>): map<string, string> {
    map e | e in m.Keys + sessions.Keys && e in online && (e in m || Attributes(sessions, e))
      :: if Attributes(sessions, e) then sessions[e] else m[e]
  }

  function AttributedAt(at: map<string, Int64>, sessions: map<string, string>, online: set<string>,
                        now: Int64): map<string, Int64> {
    map e | e in at.Keys + sessions.Keys && e in online && (e in at || Attributes(sessions, e))
      :: if Attributes(sessions, e) then now else at[e]
  }

  function Refresh(st: State, c: Call, grace: Int64): State {
    var online := Within(Touched(st.lastOnline, c.emails, c.now), c.now, grace);
    State(online, Attributed(st.sessionTag, c.sessions, online.Keys),
          AttributedAt(st.sessionAt, c.sessions, online.Keys, c.now),
          Within(Touched(st.lastActive, c.tags, c.now), c.now, grace))
  }

  predicate NoDup(s: seq<string>) {
    forall i, j :: 0 <= i < j < |s| ==> s[i] != s[j]
  }

  /** s lists the keys, each once, in some order. */
  ghost predicate Lists(s: seq<string>, keys: set<string>) {
    NoDup(s) && forall x :: x in s <==> x in keys
  }

  /** Same keys: the attribution and its time are kept together. */
  predicate Paired(st: State) {
    st.sessionTag.Keys == st.sessionAt.Keys
  }

  // ---- the tracker ------------------------------------------------------------------

  class Tracker {
    var localLastOnline: map<string, Int64>
    var onlineClients: seq<string>
    var localClientSessionTag: map<string, string>
    var localClientSessionAt: map<string, Int64>
    var localInboundLastActive: map<string, Int64>
    var localActiveInbounds: seq<string>
    var nodeOnlineTrees: map<Int64, map<string, seq<string>>>

    constructor ()
      ensures View() == Empty && Valid() && nodeOnlineTrees == map[]
    {
      localLastOnline, onlineClients, localActiveInbounds := map[], [], [];
      localClientSessionTag, localClientSessionAt, localInboundLastActive := map[], map[], map[];
      nodeOnlineTrees := map[];
    }

    function View(): State
      reads this
    {
      State(localLastOnline, localClientSessionTag, localClientSessionAt, localInboundLastActive)
    }

    /** The two lists show the keys of the two maps. */
    ghost predicate Valid()
      reads this
    {
      Paired(View()) && Lists(onlineClients, localLastOnline.Keys)
        && Lists(localActiveInbounds, localInboundLastActive.Keys)
    }

    method RefreshLocalOnline(activeEmails: seq<string>, activeInboundTags: seq<string>,
                              clientSessionTags: map<string, string>, now: Int64, graceMs: Int64)
      requires Valid()
      modifies this
      ensures Valid()
      ensures View() == Refresh(old(View()), Call(activeEmails, activeInboundTags, clientSessionTags, now), graceMs)
      ensures nodeOnlineTrees == old(nodeOnlineTrees)
    {
      hide Touched, Within, Attributed, AttributedAt, Lists;
      var last := TouchAll(localLastOnline, activeEmails, now);
      localLastOnline, onlineClients := Prune(last, now, graceMs);
      var tags, at := Attribute(localClientSessionTag, localClientSessionAt, clientSessionTags, now);
      localClientSessionTag, localClientSessionAt := DropOffline(tags, at, onlineClients, localLastOnline.Keys);
      AttributedBoth(old(localClientSessionTag), old(localClientSessionAt), clientSessionTags, now, tags, at,
                     localLastOnline.Keys, localClientSessionTag, localClientSessionAt);
      last := TouchAll(localInboundLastActive, activeInboundTags, now);
      localInboundLastActive, localActiveInbounds := Prune(last, now, graceMs);
    }

    method SetNodeOnlineTree(nodeID: Int64, tree: map<string, seq<string>>)
      modifies this`nodeOnlineTrees
      ensures nodeOnlineTrees == old(nodeOnlineTrees)[nodeID := tree]
    {
      nodeOnlineTrees := nodeOnlineTrees[nodeID := tree];
    }

    method ClearNodeOnlineClients(nodeID: Int64)
      modifies this`nodeOnlineTrees
      ensures nodeOnlineTrees == old(nodeOnlineTrees) - {nodeID}
    {
      nodeOnlineTrees := nodeOnlineTrees - {nodeID};
    }

    /** Local and remote clients, each once, whatever order the node maps are walked in. */
    method GetOnlineClients() returns (out: seq<string>)
      requires Valid()
      ensures NoDup(out)
      ensures forall e :: e in out <==> e in onlineClients || RemoteOnline(nodeOnlineTrees, e)
    {
      if nodeOnlineTrees == map[] {
        return onlineClients;
      }
      out := onlineClients;
      var nodes := nodeOnlineTrees.Keys;
      while nodes != {}
        invariant nodes <= nodeOnlineTrees.Keys
        invariant NoDup(out)
        invariant forall e :: e in out <==> e in onlineClients || RemoteOnline(Part(nodeOnlineTrees, nodes), e)
      {
        var node :| node in nodes;
        var before := out;
        out := AddTree(out, nodeOnlineTrees[node]);
        PartNext(nodeOnlineTrees, nodes, node);
        nodes := nodes - {node};
      }
      assert Part(nodeOnlineTrees, {}) == nodeOnlineTrees;
    }
  }

  // Merged subtrees by the node that hosts them.

  predicate Listed(out: map<string, seq<string>>, guid: string, e: string) {
    guid in out && e in out[guid]
  }

  /** Some direct node reports e under guid. */
  predicate Reported(trees: map<Int64, map<string, seq<string>>>, guid: string, e: string) {
    exists node :: node in trees && Listed(trees[node], guid, e)
  }

  ghost predicate Tidy(out: map<string, seq<string>>) {
    "" !in out && forall guid :: guid in out ==> out[guid] != [] && NoDup(out[guid])
  }

  /** One node's subtree is added: blank guids and empty lists are left out, repeats dropped. */
  method AddSubtree(out: map<string, seq<string>>, tree: map<string, seq<string>>) returns (r: map<string, seq<string>>)
    requires Tidy(out)
    ensures Tidy(r)
    ensures forall guid, e :: Listed(r, guid, e) <==> Listed(out, guid, e) || (guid != "" && Listed(tree, guid, e))
  {
    r := out;
    var todo := tree.Keys;
    while todo != {}
      invariant todo <= tree.Keys && Tidy(r)
      invariant forall guid, e :: Listed(r, guid, e) <==>
        Listed(out, guid, e) || (guid != "" && guid !in todo && Listed(tree, guid, e))
    {
      var guid :| guid in todo;
      var emails := tree[guid];
      todo := todo - {guid};
      if guid == "" || |emails| == 0 {
        continue;
      }
      var before := if guid in r then r[guid] else [];
      var merged := AddNew(before, emails);
      assert emails[0] in merged;
      r := r[guid := merged];
    }
  }

  method GetMergedNodeTrees(trees: map<Int64, map<string, seq<string>>>) returns (out: map<string, seq<string>>)
    ensures Tidy(out)
    ensures forall guid, e :: Listed(out, guid, e) <==> guid != "" && Reported(trees, guid, e)
  {
    hide Listed, Tidy;
    NothingListed(trees);
    out := map[];
    var todo := trees.Keys;
    while todo != {}
      invariant todo <= trees.Keys && Tidy(out)
      invariant forall guid, e :: Listed(out, guid, e) <==> guid != "" && Reported(Part(trees, todo), guid, e)
    {
      var node :| node in todo;
      out := AddSubtree(out, trees[node]);
      ReportedNext(trees, todo, node);
      todo := todo - {node};
    }
    assert Part(trees, {}) == trees;
  }

  lemma NothingListed(trees: map<Int64, map<string, seq<string>>>)
    ensures Tidy(map[]) && forall guid, e :: !Listed(map[], guid, e)
    ensures forall guid, e :: !Reported(Part(trees, trees.Keys), guid, e)
  {
  }

  lemma ReportedNext(trees: map<Int64, map<string, seq<string>>>, todo: set<Int64>, node: Int64)
    requires node in trees && node in todo
    ensures forall guid, e :: Reported(Part(trees, todo - {node}), guid, e) <==>
      Reported(Part(trees, todo), guid, e) || Listed(trees[node], guid, e)
  {
    hide Listed;
    var big, small := Part(trees, todo - {node}), Part(trees, todo);
    forall guid, e
      ensures Reported(big, guid, e) <==> Reported(small, guid, e) || Listed(trees[node], guid, e)
    {
      if Reported(small, guid, e) {
        var n :| n in small && Listed(small[n], guid, e);
        assert n in big && Listed(big[n], guid, e);
      }
      if Listed(trees[node], guid, e) {
        assert node in big && Listed(big[node], guid, e);
      }
      if Reported(big, guid, e) {
        var n :| n in big && Listed(big[n], guid, e);
        assert n == node || (n in small && Listed(small[n], guid, e));
      }
    }
  }

  // Pieces of RefreshLocalOnline.

  method TouchAll(m: map<string, Int64>, keys: seq<string>, now: Int64) returns (r: map<string, Int64>)
    ensures r == Touched(m, keys, now)
  {
    r := m;
    assert keys[..0] == [];
    assert r == Touched(m, [], now);
    for i := 0 to |keys|
      invariant r == Touched(m, keys[..i], now)
    {
      TouchedNext(m, keys, now, i);
      r := r[keys[i] := now];
    }
    assert keys[..|keys|] == keys;
  }

  lemma TouchedNext(m: map<string, Int64>, keys: seq<string>, now: Int64, i: nat)
    requires i < |keys|
    ensures Touched(m, keys[..i + 1], now) == Touched(m, keys[..i], now)[keys[i] := now]
  {
    assert keys[..i + 1] == keys[..i] + [keys[i]];
  }

  /** Deletes the entries older than the grace period while listing the others, in map order. */
  method Prune(m: map<string, Int64>, now: Int64, grace: Int64) returns (r: map<string, Int64>, kept: seq<string>)
    ensures r == Within(m, now, grace) && Lists(kept, r.Keys)
  {
    r, kept := m, [];
    var todo := m.Keys;
    while todo != {}
      invariant todo <= m.Keys
      invariant forall k :: k in r <==> k in todo || k in Within(m, now, grace)
      invariant forall k :: k in r ==> r[k] == m[k]
      invariant NoDup(kept) && forall k :: k in kept <==> k in Within(m, now, grace) && k !in todo
    {
      var k :| k in todo;
      todo := todo - {k};
      if now - m[k] < grace {
        kept := kept + [k];
      } else {
        r := r - {k};
      }
    }
    assert r == Within(m, now, grace);
  }

  /** The attribution loop, in map order. */
  method Attribute(tag: map<string, string>, at: map<string, Int64>, sessions: map<string, string>, now: Int64)
    returns (tag': map<string, string>, at': map<string, Int64>)
    ensures forall e :: e in tag' <==> e in tag || Attributes(sessions, e)
    ensures forall e :: e in tag' ==> tag'[e] == if Attributes(sessions, e) then sessions[e] else tag[e]
    ensures forall e :: e in at' <==> e in at || Attributes(sessions, e)
    ensures forall e :: e in at' ==> at'[e] == if Attributes(sessions, e) then now else at[e]
  {
    tag', at' := tag, at;
    var todo := sessions.Keys;
    while todo != {}
      invariant todo <= sessions.Keys
      invariant forall e :: e in tag' <==> e in tag || (Attributes(sessions, e) && e !in todo)
      invariant forall e :: e in tag' ==>
        tag'[e] == if Attributes(sessions, e) && e !in todo then sessions[e] else tag[e]
      invariant forall e :: e in at' <==> e in at || (Attributes(sessions, e) && e !in todo)
      invariant forall e :: e in at' ==> at'[e] == if Attributes(sessions, e) && e !in todo then now else at[e]
    {
      var email :| email in todo;
      todo := todo - {email};
      if email == "" || sessions[email] == "" {
        continue;
      }
      tag' := tag'[email := sessions[email]];
      at' := at'[email := now];
    }
  }

  method DropOffline(tag: map<string, string>, at: map<string, Int64>, onlineList: seq<string>,
                     ghost online: set<string>)
    returns (tag': map<string, string>, at': map<string, Int64>)
    requires tag.Keys == at.Keys && Lists(onlineList, online)
    ensures tag' == (map e | e in tag && e in online :: tag[e])
    ensures at' == (map e | e in at && e in online :: at[e])
  {
    tag', at' := tag, at;
    var onlineSet := set e | e in onlineList;
    var todo := tag.Keys;
    while todo != {}
      invariant todo <= tag.Keys
      invariant forall e :: e in tag' <==> e in tag && (e in online || e in todo)
      invariant forall e :: e in at' <==> e in at && (e in online || e in todo)
      invariant forall e :: e in tag' ==> tag'[e] == tag[e]
      invariant forall e :: e in at' ==> at'[e] == at[e]
    {
      var email :| email in todo;
      todo := todo - {email};
      if email !in onlineSet {
        tag' := tag' - {email};
        at' := at' - {email};
      }
    }
  }

  lemma AttributedBoth(tag0: map<string, string>, at0: map<string, Int64>, sessions: map<string, string>, now: Int64,
                       tag1: map<string, string>, at1: map<string, Int64>, online: set<string>,
                       tag2: map<string, string>, at2: map<string, Int64>)
    requires tag0.Keys == at0.Keys
    requires forall e :: e in tag1 <==> e in tag0 || Attributes(sessions, e)
    requires forall e :: e in tag1 ==> tag1[e] == if Attributes(sessions, e) then sessions[e] else tag0[e]
    requires forall e :: e in at1 <==> e in at0 || Attributes(sessions, e)
    requires forall e :: e in at1 ==> at1[e] == if Attributes(sessions, e) then now else at0[e]
    requires tag2 == (map e | e in tag1 && e in online :: tag1[e])
    requires at2 == (map e | e in at1 && e in online :: at1[e])
    ensures tag2 == Attributed(tag0, sessions, online) && at2 == AttributedAt(at0, sessions, online, now)
    ensures tag2.Keys == at2.Keys
  {
  }

  // Remote subtrees.

  predicate InTree(tree: map<string, seq<string>>, e: string) {
    exists guid :: guid in tree && e in tree[guid]
  }

  predicate RemoteOnline(trees: map<Int64, map<string, seq<string>>>, e: string) {
    exists node :: node in trees && InTree(trees[node], e)
  }

  /** The trees of the nodes already walked. */
  function Part(trees: map<Int64, map<string, seq<string>>>, todo: set<Int64>): map<Int64, map<string, seq<string>>> {
    map n | n in trees && n !in todo :: trees[n]
  }

  lemma PartNext(trees: map<Int64, map<string, seq<string>>>, todo: set<Int64>, node: Int64)
    requires node in trees && node in todo
    ensures forall e :: RemoteOnline(Part(trees, todo - {node}), e) <==>
      RemoteOnline(Part(trees, todo), e) || InTree(trees[node], e)
  {
    hide InTree;
    forall e
      ensures RemoteOnline(Part(trees, todo - {node}), e)
        <==> RemoteOnline(Part(trees, todo), e) || InTree(trees[node], e)
    {
      var big, small := Part(trees, todo - {node}), Part(trees, todo);
      if RemoteOnline(small, e) {
        var n :| n in small && InTree(small[n], e);
        assert n in big && InTree(big[n], e);
      }
      if InTree(trees[node], e) {
        assert node in big && InTree(big[node], e);
      }
      if RemoteOnline(big, e) {
        var n :| n in big && InTree(big[n], e);
        assert n == node || (n in small && InTree(small[n], e));
      }
    }
  }

  /** Appends what is not there yet. */
  method AddNew(out: seq<string>, emails: seq<string>) returns (r: seq<string>)
    requires NoDup(out)
    ensures NoDup(r) && out <= r
    ensures forall e :: e in r <==> e in out || e in emails
  {
    r := out;
    for i := 0 to |emails|
      invariant NoDup(r) && out <= r
      invariant forall e :: e in r <==> e in out || e in emails[..i]
    {
      assert emails[..i+1] == emails[..i] + [emails[i]];
      if emails[i] in r {
        continue;
      }
      r := r + [emails[i]];
    }
    assert emails[..|emails|] == emails;
  }

  method AddTree(out: seq<string>, tree: map<string, seq<string>>) returns (r: seq<string>)
    requires NoDup(out)
    ensures NoDup(r)
    ensures forall e :: e in r <==> e in out || InTree(tree, e)
  {
    r := out;
    var todo := tree.Keys;
    while todo != {}
      invariant todo <= tree.Keys && NoDup(r)
      invariant forall e :: e in r <==> e in out || exists g :: g in tree && g !in todo && e in tree[g]
    {
      var guid :| guid in todo;
      r := AddNew(r, tree[guid]);
      todo := todo - {guid};
    }
  }
}
