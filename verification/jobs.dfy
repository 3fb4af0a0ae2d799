/**
 The four subscription services of run.py, the string ids under which their
 jobs live in the scheduler, and the cron data each service is scheduled with.
 */
module Jobs {
  import opened Wrappers
  import opened Strings

  /** The services a chat can subscribe to. */
  datatype ServiceKind = Jaculatoria | Santo | Meditacao | AngelusReginaCaeli

  /** The services in the order the menu lists them. */
  const Kinds: seq<ServiceKind> := [Jaculatoria, Santo, Meditacao, AngelusReginaCaeli]

  /** The `service_type` text stored for a service. */
  function KindName(k: ServiceKind): string {
    match k
    case Jaculatoria => "jaculatoria"
    case Santo => "santo"
    case Meditacao => "meditacao"
    case AngelusReginaCaeli => "angelus_regina_caeli"
  }

  /** The `service_type` dispatch of schedule_services: the four known texts, nothing else. */
  function KindOf(name: string): (k: Option<ServiceKind>)
    ensures k.Some? ==> KindName(k.value) == name
    ensures k.None? ==> forall kind :: KindName(kind) != name
  {
    if name == "santo" then Some(Santo)
    else if name == "jaculatoria" then Some(Jaculatoria)
    else if name == "meditacao" then Some(Meditacao)
    else if name == "angelus_regina_caeli" then Some(AngelusReginaCaeli)
    else None
  }

  /** The part of a job id before the chat id. */
  function JobPrefix(k: ServiceKind): string {
    "registra_" + KindName(k) + "_"
  }

  /** `'registra_<kind>_' + str(chat_id)`, the id of a chat's job for a service. */
  function JobId(k: ServiceKind, chat: int): string {
    JobPrefix(k) + IntToString(chat)
  }

  /** Reads a job id back into its service and chat; None for any other id. */
  function ParseJobId(id: string): Option<(ServiceKind, int)> {
    if JobPrefix(Jaculatoria) <= id then ParseChat(Jaculatoria, id)
    else if JobPrefix(Santo) <= id then ParseChat(Santo, id)
    else if JobPrefix(Meditacao) <= id then ParseChat(Meditacao, id)
    else if JobPrefix(AngelusReginaCaeli) <= id then ParseChat(AngelusReginaCaeli, id)
    else None
  }

  function ParseChat(k: ServiceKind, id: string): Option<(ServiceKind, int)>
    requires JobPrefix(k) <= id
  {
    match ParseInt(id[|JobPrefix(k)|..])
    case Some(chat) => Some((k, chat))
    case None => None
  }

  /** Every job id begins with "registra_", and its tenth character tells the service apart. */
  lemma JobIdShape(k: ServiceKind, chat: int)
    ensures JobId(k, chat)[..9] == "registra_"
    ensures JobId(k, chat)[9] == KindName(k)[0]
  {
  }

  /** A job id is read back into the very service and chat it was built from. */
  lemma JobIdRoundTrip(k: ServiceKind, chat: int)
    ensures ParseJobId(JobId(k, chat)) == Some((k, chat))
  {
    var id := JobId(k, chat);
    JobIdShape(k, chat);
    IntToStringRoundTrip(chat);
    assert id[|JobPrefix(k)|..] == IntToString(chat);
    forall other | other != k
      ensures !(JobPrefix(other) <= id)
    {
      OtherPrefixMisses(k, other, chat);
    }
  }

  /** The prefix of another service does not start a job id: the services' names begin with distinct letters. */
  lemma OtherPrefixMisses(k: ServiceKind, other: ServiceKind, chat: int)
    requires other != k
    ensures !(JobPrefix(other) <= JobId(k, chat))
  {
    JobIdShape(k, chat);
    assert KindName(other)[0] != KindName(k)[0];
    assert JobPrefix(other)[9] == KindName(other)[0];
  }

  /** Distinct (service, chat) pairs get distinct job ids. */
  lemma JobIdInjective(k1: ServiceKind, chat1: int, k2: ServiceKind, chat2: int)
    ensures JobId(k1, chat1) == JobId(k2, chat2) <==> k1 == k2 && chat1 == chat2
  {
    JobIdRoundTrip(k1, chat1);
    JobIdRoundTrip(k2, chat2);
  }

  /**
   A cron trigger as the source writes it: the listed hours, and the minute
   when one is given (the scheduler library supplies the default otherwise).
   */
  datatype Cron = Cron(hours: seq<nat>, minute: Option<nat>)

  /** The trigger each service is registered with. */
  function Schedule(k: ServiceKind): (c: Cron)
    ensures |c.hours| > 0
    ensures forall i :: 0 <= i < |c.hours| ==> c.hours[i] < 24
    ensures c.minute.Some? ==> c.minute.value < 60
  {
    match k
    case Jaculatoria => Cron([10, 16, 20], Some(30))
    case Santo => Cron([8], None)
    case Meditacao => Cron([5], Some(5))
    case AngelusReginaCaeli => Cron([12], None)
  }

  /** What a scheduled job does when it fires. */
  datatype Action =
    | SendService(kind: ServiceKind, chat: int)  // send_aspiration, send_saint, ... with chat_id
    | RequestSaint                              // request_saint_of_the_day
    | RequestMeditation                         // request_daily_meditation
    | RequestSeason                             // request_liturgical_season

  datatype Job = Job(action: Action, cron: Cron)

  /** The job a chat's subscription to a service is scheduled as. */
  function ServiceJob(k: ServiceKind, chat: int): Job {
    Job(SendService(k, chat), Schedule(k))
  }

  /** The three daily data-refresh jobs main() adds before it restores the subscriptions. */
  function DailyJobs(): (m: map<string, Job>)
    ensures |m| == 3
    ensures forall id :: id in m ==> !m[id].action.SendService?
    ensures forall k, chat :: JobId(k, chat) !in m
  {
    var m := map[
      "request_saint_of_the_day" := Job(RequestSaint, Cron([7], Some(50))),
      "request_daily_meditation" := Job(RequestMeditation, Cron([4], Some(45))),
      "request_liturgical_season" := Job(RequestSeason, Cron([9], Some(15)))];
    assert forall k, chat :: JobId(k, chat) !in m by {
      forall k, chat ensures JobId(k, chat) !in m {
        JobIdIsNoDailyKey(k, chat);
      }
    }
    m
  }

  /** A job id starts "reg", the daily jobs' ids start "req". */
  lemma JobIdIsNoDailyKey(k: ServiceKind, chat: int)
    ensures JobId(k, chat) != "request_saint_of_the_day"
    ensures JobId(k, chat) != "request_daily_meditation"
    ensures JobId(k, chat) != "request_liturgical_season"
  {
    JobIdShape(k, chat);
    var id := JobId(k, chat);
    assert id[2] == 'g';
    assert "request_saint_of_the_day"[2] == 'q';
    assert "request_daily_meditation"[2] == 'q';
    assert "request_liturgical_season"[2] == 'q';
  }
}
