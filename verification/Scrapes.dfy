/** What scrapers are sent over whole runs of the connection loop. */
module Scrapes {
  import opened CStrings
  import opened ConnectionTable
  import opened MetricDatabase
  import opened Service
  import Client

  /** The numbers refreshed in the iterations of a run that get as far as serving. */
  function Refreshes(rounds: seq<Round>): seq<Sample> {
    if rounds == [] then []
    else (if rounds[0].ready > 0 then [rounds[0].sample] else []) + Refreshes(rounds[1..])
  }

  lemma {:induction false} RefreshedOne(samples: seq<Sample>, sample: Sample)
    ensures Refreshed(samples + [sample]) == Store(Refreshed(samples), Written(sample))
  {
    assert (samples + [sample])[..|samples|] == samples;
  }

  /** After a refresh, the numbers it read are the last ones. */
  lemma {:induction false} LatestIsTold(samples: seq<Sample>, sample: Sample)
    ensures Told(Latest(Concat(samples + [sample])), sample)
  {
    hide Written, Store, Concat, Told, Refreshed, Latest;
    var numbers := Latest(Concat(samples + [sample]));
    RefreshedOne(samples, sample);
    RefreshIsTold(Refreshed(samples), sample);
    RefreshedIsClean(samples + [sample]);
    TextsAreRead(numbers);
  }

  lemma {:induction false} IterationRefreshes(cfg: Config, s: State, r: Round, samples: seq<Sample>)
    requires Iterate(cfg, s, r).GoOn? && s.db == Refreshed(samples)
    ensures Iterate(cfg, s, r).s.db == Refreshed(samples + if r.ready > 0 then [r.sample] else [])
  {
    hide Iterate, Written, Store, Refreshed;
    DatabaseAfter(cfg, s, r);
    if r.ready > 0 {
      RefreshedOne(samples, r.sample);
    } else {
      assert samples + [] == samples;
    }
  }

  /** The loop's database over every run: at each head of the loop it is what the first refresh and those
      of the iterations so far have made of an empty one. */
  lemma {:induction false} HeadIsRefreshed(cfg: Config, s: State, rounds: seq<Round>, samples: seq<Sample>)
    requires s.db == Refreshed(samples) && Head(cfg, s, rounds).Some?
    ensures Head(cfg, s, rounds).value.db == Refreshed(samples + Refreshes(rounds))
    decreases |rounds|
  {
    hide Iterate, Written, Store, Refreshed;
    if rounds == [] {
      assert samples + [] == samples;
    } else {
      var r := rounds[0];
      var added := if r.ready > 0 then [r.sample] else [];
      IterationRefreshes(cfg, s, r, samples);
      HeadIsRefreshed(cfg, Iterate(cfg, s, r).s, rounds[1..], samples + added);
      assert samples + Refreshes(rounds) == samples + added + Refreshes(rounds[1..]);
    }
  }

  lemma {:induction false} HeadIsCurrent(cfg: Config, open: set<int>, first: Sample, rounds: seq<Round>)
    requires Head(cfg, Boot(cfg, open, first), rounds).Some?
    ensures Head(cfg, Boot(cfg, open, first), rounds).value.db == Refreshed([first] + Refreshes(rounds))
  {
    assert [first][..0] == [];
    HeadIsRefreshed(cfg, Boot(cfg, open, first), rounds, [first]);
  }

  /** What an iteration sends is part of what the run sends. */
  lemma {:induction false} SentInRun(cfg: Config, s: State, rounds: seq<Round>, k: nat, x: Sent)
    requires k < |rounds| && Head(cfg, s, rounds[..k]).Some?
    requires x in Sends(cfg, Head(cfg, s, rounds[..k]).value, rounds[k])
    ensures x in Log(cfg, s, rounds)
    decreases k
  {
    hide Iterate, Sends;
    if k > 0 {
      assert rounds[..k][0] == rounds[0] && rounds[..k][1..] == rounds[1..][..k - 1];
      SentInRun(cfg, Iterate(cfg, s, rounds[0]).s, rounds[1..], k - 1, x);
    }
  }

  lemma {:induction false} ReadableIsAnswered(conns: seq<Conn>, r: Round, db: map<string, string>, c: Conn)
    requires c in conns && r.mask(c.fd) == POLLIN
    ensures Sent(c.fd, OnTheWire(r.exchange(c.fd), db)) in Replies(conns, r, db)
    decreases |conns|
  {
    var front, last := conns[..|conns| - 1], conns[|conns| - 1];
    if c != last {
      assert conns == front + [last];
      ReadableIsAnswered(front, r, db, c);
    }
  }

  /** Every scrape is current: in any iteration of any run, a connection of the table over which a GET for
      the metrics arrives is sent, as far as its peer takes it, a reply that shows every metric with the
      last number refreshed since the server started; the numbers of this iteration's refresh stand under
      their names. */
  lemma EveryScrapeIsCurrent(cfg: Config, open: set<int>, first: Sample, rounds: seq<Round>, k: nat, c: Conn,
                             target: string, version: string, headers: seq<string>) returns (reply: string)
    requires k < |rounds|
    requires var head := Head(cfg, Boot(cfg, open, first), rounds[..k]);
             head.Some? && c in head.value.conns && Iterate(cfg, head.value, rounds[k]).GoOn?
    requires rounds[k].ready > 0 && rounds[k].mask(c.fd) == POLLIN
    requires AsksForMetrics(rounds[k].exchange(c.fd), target, version, headers)
    ensures var numbers := Latest(Concat([first] + Refreshes(rounds[..k]) + [rounds[k].sample]));
            Shows(reply, numbers) && Told(numbers, rounds[k].sample)
    ensures var taken := Min(Client.Takes(rounds[k].exchange(c.fd).outgoing), |reply|);
            Sent(c.fd, reply[..taken]) in Log(cfg, Boot(cfg, open, first), rounds)
  {
    hide Iterate, Boot, Written, Store, Refreshed, Replies, Latest, AsksForMetrics, Shows, Told;
    var boot, r := Boot(cfg, open, first), rounds[k];
    var s, samples := Head(cfg, boot, rounds[..k]).value, [first] + Refreshes(rounds[..k]) + [r.sample];
    HeadIsCurrent(cfg, open, first, rounds[..k]);
    RefreshedOne([first] + Refreshes(rounds[..k]), r.sample);
    DatabaseAfter(cfg, s, r);
    LatestIsTold([first] + Refreshes(rounds[..k]), r.sample);
    MetricsEndToEnd(target, version, headers, r.exchange(c.fd), samples);
    reply := Reply(r.exchange(c.fd), Refreshed(samples));
    ReadableIsAnswered(s.conns, r, Refreshed(samples), c);
    SentInRun(cfg, boot, rounds, k, Sent(c.fd, OnTheWire(r.exchange(c.fd), Refreshed(samples))));
  }
}
