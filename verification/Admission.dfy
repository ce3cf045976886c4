/** What becomes of a frame, from its bytes: the VLAN it belongs to, who learns, who is sent
    a copy and in what form. */
module Admission {
  import opened KeyPacking
  import opened Learning
  import opened Frames
  import opened SwitchSpec
  import opened SwitchSafety
  import opened Maybes

  /** A tagged frame has 0x8100 in the place of its type. */
  predicate HasTag(f: Frame)
    requires |f| >= MINFRAME
  {
    f[12] == 0x81 && f[13] == 0x00
  }

  /** The low twelve bits of the two bytes behind it. */
  function TagVlan(f: Frame): nat
    requires |f| >= MINFRAME
  {
    var hi: nat, lo: nat := f[14], f[15];
    hi % 16 * 256 + lo
  }

  /** A member port is one that the VLAN's table names. */
  predicate MemberOf(s: State, p: nat, v: nat) {
    v in s.member && p in s.member[v]
  }

  /** What the table says of a source address after a sighting on port p: it is that port's,
      unless it is another's that has been heard within the persistence. No other row changes. */
  ghost predicate Sighted(s: State, t: State, key: nat, p: nat) {
    && t == s.(learned := t.learned)
    && key in t.learned && (forall k :: k != key ==> (k in t.learned <==> k in s.learned))
    && (forall k :: k in s.learned && k != key ==> t.learned[k] == s.learned[k])
    && t.learned[key] ==
         if key in s.learned && s.learned[key].port != p && s.now - s.learned[key].lastSeen <= s.minPersistence
         then s.learned[key]
         else Learned(p, s.now)
  }

  /** A copy of a frame of VLAN v for port q, as it is sent. Between ports of the same form
      the frame is sent as it is. */
  predicate SentForm(s: State, q: nat, v: nat, f: Frame, flooded: bool, x: Frame)
    requires q in s.ports && |f| >= MINFRAME
  {
    var untag := s.ports[q].vlanuntag == v;
    if HasTag(f) != untag then x == f
    else if HasTag(f) || flooded then x == f[..12] + f[16..]
    else x == f[..8] + [0x81, 0x00, v / 256 % 256, v % 256] + f[8..]
  }

  /** The source address is learned in VLAN v, unless it is a group address. */
  ghost predicate LearnedAs(s: State, p: nat, v: nat, f: Frame, t: State)
    requires |f| >= MINFRAME
  {
    var src: Mac := f[6..12];
    if f[6] % 2 == 1 then t == s else Sighted(s, t, ExtMac(src, v), p)
  }

  /** Copies go to active members of v other than p: once to each if the destination is a
      group address or not known in v, and else to the port it is known on. */
  ghost predicate SentAs(s: State, p: nat, v: nat, f: Frame, t: State, sends: seq<Send>)
    requires |f| >= MINFRAME
  {
    var dst: Mac := f[..6];
    var key := ExtMac(dst, v);
    var flooded := f[0] % 2 == 1 || key !in t.learned;
    && (forall i :: 0 <= i < |sends| ==>
          var q := sends[i].port;
          && q != p && q in s.ports && s.ports[q].eps != [] && MemberOf(s, q, v)
          && SentForm(s, q, v, f, flooded, sends[i].frame))
    && if flooded
       then OnceEach(sends, set q | q in s.ports && s.ports[q].eps != [] && MemberOf(s, q, v) && q != p)
       else if t.learned[key].port == p then sends == []
       else |sends| == 1 && sends[0].port == t.learned[key].port
  }

  /** The frame has been handled as one of VLAN v that came in at port p. */
  ghost predicate HandledAs(s: State, p: nat, v: nat, f: Frame, r: Handled)
    requires |f| >= MINFRAME
  {
    LearnedAs(s, p, v, f, r.state) && SentAs(s, p, v, f, r.state, r.sends)
  }

  lemma Bytes(f: Frame)
    requires |f| >= MINFRAME
    ensures Tagged(f) == HasTag(f) && Vid(f) == TagVlan(f)
    ensures Dest(f) == f[..6] && Source(f) == f[6..12]
    ensures IsBroadcast(Dest(f)) <==> f[0] % 2 == 1
    ensures IsBroadcast(Source(f)) <==> f[6] % 2 == 1
  {
    var hi: nat, lo: nat := f[14], f[15];
    assert hi * 256 == hi / 16 * 0x1000 + hi % 16 * 256;
  }

  lemma AdmittedForm(s: State, p: nat, f: Frame, i: nat)
    requires Inv(s) && !s.hub && Active(s, p) && |f| >= MINFRAME && Ingress(s, p, f).Some?
    requires i < |HandleIn(s, p, f).sends|
    ensures var v := Ingress(s, p, f).value; var r := HandleIn(s, p, f);
      r.sends[i].port in s.ports
      && SentForm(s, r.sends[i].port, v, f, Floods(r.state, v, f), r.sends[i].frame)
  {
    var v := Ingress(s, p, f).value;
    IngressReachable(s, p, f);
    LearnKeeps(s, p, v, f);
    Bytes(f);
    var t := LearnSource(s, p, v, f);
    if Floods(t, v, f) {
      FloodForms(t, p, v, f, i);
    } else {
      KnownUnicast(t, p, v, f);
    }
  }

  lemma SourceLearned(s: State, p: nat, v: nat, f: Frame)
    requires |f| >= MINFRAME
    ensures LearnedAs(s, p, v, f, LearnSource(s, p, v, f))
  {
    Bytes(f);
  }

  lemma AdmittedState(s: State, p: nat, v: nat, f: Frame)
    requires Inv(s) && !s.hub && Active(s, p) && |f| >= MINFRAME && Ingress(s, p, f) == Some(v)
    ensures HandleIn(s, p, f).state == LearnSource(s, p, v, f)
  {
  }

  lemma OthersAre(s: State, v: nat, p: nat)
    ensures Others(s, v, p) == set q | q in s.ports && s.ports[q].eps != [] && MemberOf(s, q, v) && q != p
  {
  }

  lemma AdmittedForms(s: State, p: nat, v: nat, f: Frame)
    requires Inv(s) && !s.hub && Active(s, p) && |f| >= MINFRAME && Ingress(s, p, f) == Some(v)
    ensures var r := HandleIn(s, p, f);
      forall i :: 0 <= i < |r.sends| ==>
        && r.sends[i].port in s.ports
        && SentForm(s, r.sends[i].port, v, f, Floods(r.state, v, f), r.sends[i].frame)
  {
    var r := HandleIn(s, p, f);
    forall i | 0 <= i < |r.sends|
      ensures r.sends[i].port in s.ports
           && SentForm(s, r.sends[i].port, v, f, Floods(r.state, v, f), r.sends[i].frame)
    {
      AdmittedForm(s, p, f, i);
    }
  }

  lemma AdmittedSends(s: State, p: nat, v: nat, f: Frame)
    requires Inv(s) && !s.hub && Active(s, p) && |f| >= MINFRAME && Ingress(s, p, f) == Some(v)
    ensures var r := HandleIn(s, p, f); SentAs(s, p, v, f, r.state, r.sends)
  {
    Isolation(s, p, f);
    Bytes(f);
    AdmittedForms(s, p, v, f);
    OthersAre(s, v, p);
  }

  /** A frame that is admitted into v is handled as one of v. */
  lemma AdmittedHandled(s: State, p: nat, v: nat, f: Frame)
    requires Inv(s) && !s.hub && Active(s, p) && |f| >= MINFRAME && Ingress(s, p, f) == Some(v)
    ensures HandledAs(s, p, v, f, HandleIn(s, p, f))
  {
    AdmittedState(s, p, v, f);
    SourceLearned(s, p, v, f);
    AdmittedSends(s, p, v, f);
  }

  /** A tagged frame belongs to the VLAN of its tag: it is dropped if the port is no member,
      and handled in that VLAN if it is. */
  lemma TaggedHandled(s: State, p: nat, f: Frame)
    requires Inv(s) && NothingBlocked(s) && !s.hub && Active(s, p) && |f| >= MINFRAME && HasTag(f)
    ensures if MemberOf(s, p, TagVlan(f)) then HandledAs(s, p, TagVlan(f), f, HandleIn(s, p, f))
            else HandleIn(s, p, f) == Handled(s, [])
  {
    Bytes(f);
    if MemberOf(s, p, TagVlan(f)) {
      assert Ingress(s, p, f) == Some(TagVlan(f));
      AdmittedHandled(s, p, TagVlan(f), f);
    }
  }

  /** An untagged frame belongs to the untagged VLAN of its port, and is dropped if there is
      none. */
  lemma UntaggedHandled(s: State, p: nat, f: Frame)
    requires Inv(s) && NothingBlocked(s) && !s.hub && Active(s, p) && |f| >= MINFRAME && !HasTag(f)
    ensures var v := s.ports[p].vlanuntag;
      if v != 0xfff then MemberOf(s, p, v) && HandledAs(s, p, v, f, HandleIn(s, p, f))
      else HandleIn(s, p, f) == Handled(s, [])
  {
    Bytes(f);
    var v := s.ports[p].vlanuntag;
    if v != 0xfff {
      assert Ingress(s, p, f) == Some(v);
      AdmittedHandled(s, p, v, f);
    }
  }
}
