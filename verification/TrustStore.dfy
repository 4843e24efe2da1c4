/** The store that holds the peers, and the file it keeps them in. */
module TrustStore {
  import opened Prelude
  import opened Pairing
  import opened TrustRules

  // ---- the file -------------------------------------------------------------------------------

  /** `load`: records by fingerprint, the last of two under one key winning. */
  function LoadPeers(document: seq<Peer>): Peers {
    if document == [] then map[]
    else
      var p := document[|document| - 1];
      LoadPeers(document[..|document| - 1])[p.fingerprint := Normalized(p)]
  }

  /** The document lists the records of the map, in whatever order. */
  ghost predicate Lists(document: seq<Peer>, peers: Peers) {
    && (forall i :: 0 <= i < |document| ==> document[i].fingerprint in peers && peers[document[i].fingerprint] == document[i])
    && (forall fp :: fp in peers ==> peers[fp] in document)
  }

  lemma {:induction false} LoadedRecord(document: seq<Peer>, fp: Fingerprint)
    ensures fp in LoadPeers(document) <==> exists i :: 0 <= i < |document| && document[i].fingerprint == fp
    ensures fp in LoadPeers(document) ==> exists i :: 0 <= i < |document| && document[i].fingerprint == fp
                                                      && LoadPeers(document)[fp] == Normalized(document[i])
  {
    if document != [] {
      LoadedRecord(document[..|document| - 1], fp);
      var last := |document| - 1;
      if document[last].fingerprint == fp {
        assert LoadPeers(document)[fp] == Normalized(document[last]);
      } else if fp in LoadPeers(document) {
        var i :| 0 <= i < last && document[..last][i].fingerprint == fp
                 && LoadPeers(document[..last])[fp] == Normalized(document[..last][i]);
        assert document[i] == document[..last][i];
      } else {
        assert forall i :: 0 <= i < last ==> document[..last][i] == document[i];
      }
    }
  }

  /** What was written comes back, whatever order the records were listed in. */
  lemma DocumentRoundTrip(document: seq<Peer>, peers: Peers)
    requires WellFormed(peers) && Lists(document, peers)
    ensures LoadPeers(document) == peers
  {
    forall fp: Fingerprint
      ensures fp in LoadPeers(document) <==> fp in peers
      ensures fp in peers ==> LoadPeers(document)[fp] == peers[fp]
    {
      LoadedRecord(document, fp);
      if fp in peers {
        var i :| 0 <= i < |document| && document[i] == peers[fp];
        assert document[i].fingerprint == fp;
      }
    }
  }

  datatype HideOutcome = Hidden | NotFound | NotRevoked | AlreadyHidden

  // ---- the store ------------------------------------------------------------------------------

  /** Every method takes `written`, the fate of the write it makes. */
  class Store {
    const settings: Settings
    var peers: Peers
    var document: seq<Peer>

    ghost predicate Valid()
      reads this
    {
      WellFormed(peers)
    }

    ghost function View(): Stored
      reads this
    {
      Stored(peers, LoadPeers(document))
    }

    constructor (settings: Settings)
      ensures Valid() && View() == Stored(map[], map[]) && this.settings == settings
    {
      this.settings, peers, document := settings, map[], [];
    }

    /** The records of the map, each once. */
    method StateDocument() returns (doc: seq<Peer>)
      requires Valid()
      ensures Lists(doc, peers)
    {
      doc := [];
      var todo := peers.Keys;
      while todo != {}
        invariant todo <= peers.Keys
        invariant forall i :: 0 <= i < |doc| ==> doc[i].fingerprint in peers && peers[doc[i].fingerprint] == doc[i]
        invariant forall fp :: fp in peers && fp !in todo ==> peers[fp] in doc
        decreases |todo|
      {
        var fp :| fp in todo;
        todo := todo - {fp};
        doc := doc + [peers[fp]];
      }
    }

    method Persist(written: bool)
      requires Valid()
      modifies this`document
      ensures View().disk == if written then peers else old(View().disk)
    {
      var doc := StateDocument();
      if written {
        document := doc;
        DocumentRoundTrip(doc, peers);
      }
    }

    /** A map that could not be written is given up again for the one before. */
    method Commit(next: Peers, written: bool)
      requires Valid() && WellFormed(next)
      modifies this
      ensures Valid()
      ensures View() == if written then Stored(next, next) else old(View())
    {
      var previous := peers;
      peers := next;
      Persist(written);
      if !written {
        peers := previous;
      }
    }

    /** `store_peer`: the literal is the whole record, so nothing of an older pairing survives. */
    method StorePeer(c: Command, written: bool)
      requires Valid() && c.Pair?
      modifies this
      ensures Valid() && View() == Step(settings, old(View()), Do(c, written))
    {
      var granted: map<Text, bool> := map[];
      for i := 0 to |c.mutual|
        invariant granted == map m | m in c.mutual[..i] :: m in settings.autoGrant
      {
        granted := granted[c.mutual[i] := c.mutual[i] in settings.autoGrant];
      }
      assert c.mutual[..|c.mutual|] == c.mutual;
      var peer := Peer(c.fp, c.deviceId, c.deviceName, granted, c.version, false, false, CLIPBOARD_DEFAULT, NOTIFICATION_DEFAULT);
      peers := peers[peer.fingerprint := peer];
      Persist(written);
    }

    method RevokePeer(fp: Fingerprint, written: bool) returns (found: bool)
      requires Valid()
      modifies this
      ensures Valid() && View() == Step(settings, old(View()), Do(Revoke(fp), written))
      ensures found == (fp in old(peers))
    {
      found := fp in peers;
      if found {
        var p := peers[fp];
        p := p.(revoked := true);
        p := p.(granted := map[]);
        p := p.(clipboardPolicy := CLIPBOARD_DENIED, notificationPolicy := NOTIFICATION_DENIED);
        peers := peers[fp := p];
        Persist(written);
      }
    }

    method HideRevokedPeer(fp: Fingerprint, written: bool) returns (outcome: HideOutcome)
      requires Valid()
      modifies this
      ensures Valid() && View() == Step(settings, old(View()), Do(Hide(fp), written))
      ensures outcome == if fp !in old(peers) then NotFound else if !old(peers)[fp].revoked then NotRevoked
                         else if old(peers)[fp].hidden then AlreadyHidden else Hidden
    {
      if fp !in peers {
        return NotFound;
      }
      if !peers[fp].revoked {
        return NotRevoked;
      }
      if peers[fp].hidden {
        return AlreadyHidden;
      }
      Commit(peers[fp := Tombstone(peers[fp].fingerprint)], written);
      outcome := Hidden;
    }

    /** One write for the whole set. */
    method HideAllRevokedPeers(written: bool) returns (targets: set<Fingerprint>)
      requires Valid()
      modifies this
      ensures Valid() && View() == Step(settings, old(View()), Do(HideAll, written))
      ensures forall fp :: fp in targets <==> fp in old(peers) && old(peers)[fp].revoked && !old(peers)[fp].hidden
    {
      targets := set fp | fp in peers && peers[fp].revoked && !peers[fp].hidden;
      assert forall fp :: fp in peers && peers[fp].revoked && !peers[fp].hidden ==> fp in targets;
      if targets == {} {
        return;
      }
      var next, todo := peers, targets;
      while todo != {}
        invariant todo <= targets && next.Keys == peers.Keys
        invariant forall fp :: fp in peers ==> next[fp] == if fp in targets && fp !in todo then Tombstone(fp) else peers[fp]
        decreases |todo|
      {
        var fp :| fp in todo;
        todo := todo - {fp};
        next := next[fp := Tombstone(next[fp].fingerprint)];
      }
      assert next == Apply(settings, peers, HideAll);
      ApplyKeepsWellFormed(settings, peers, HideAll);
      assert TakesEffect(settings, peers, HideAll) by {
        var fp :| fp in targets;
      }
      Commit(next, written);
    }

    /** `do_grant`: only an implemented capability, and only for a device that is trusted. */
    method GrantCapability(fp: Fingerprint, capability: Text, granted: bool, written: bool) returns (accepted: bool)
      requires Valid()
      modifies this
      ensures Valid() && View() == Step(settings, old(View()), Do(Grant(fp, capability, granted), written))
      ensures accepted == TakesEffect(settings, old(peers), Grant(fp, capability, granted))
    {
      if capability !in settings.registry {
        return false;
      }
      if fp !in peers || peers[fp].revoked {
        return false;
      }
      var p := peers[fp];
      peers := peers[fp := p.(granted := p.granted[capability := granted])];
      Persist(written);
      accepted := true;
    }

    method SetClipboardPolicy(fp: Fingerprint, policy: ClipboardPolicy, written: bool)
      requires Valid()
      modifies this
      ensures Valid() && View() == Step(settings, old(View()), Do(SetClipboard(fp, policy), written))
    {
      if fp in peers {
        peers := peers[fp := peers[fp].(clipboardPolicy := policy)];
      }
      Persist(written);
    }

    method SetNotificationPolicy(fp: Fingerprint, policy: NotificationPolicy, written: bool)
      requires Valid()
      modifies this
      ensures Valid() && View() == Step(settings, old(View()), Do(SetNotifications(fp, policy), written))
    {
      if fp in peers {
        peers := peers[fp := peers[fp].(notificationPolicy := policy)];
      }
      Persist(written);
    }

    /** A new process: the peers are what the file says, hidden records revoked whatever it says. */
    method Reload()
      modifies this
      ensures Valid() && View() == Step(settings, old(View()), Restart)
    {
      var loaded: Peers := map[];
      for i := 0 to |document|
        invariant loaded == LoadPeers(document[..i]) && WellFormed(loaded)
      {
        var p := document[i];
        if p.hidden {
          p := p.(revoked := true);
        }
        assert document[..i + 1][..i] == document[..i];
        loaded := loaded[p.fingerprint := p];
      }
      assert document[..|document|] == document;
      peers := loaded;
    }
  }
}
