/**
 The /registrar_servicos conversation of run.py: show_services offers, per
 service, either "register" or "stop" depending on whether the chat's job
 exists, and select_service dispatches the pressed button's callback data
 to the matching register_* / stop_* handler.
 */
module Menu {
  import opened Wrappers
  import opened Jobs
  import opened Registry
  import opened Strings

  /** What a menu button asks for. */
  datatype Command = RegisterCmd(kind: ServiceKind) | StopCmd(kind: ServiceKind)

  /** The callback data of a button: `registrar_<kind>` or `parar_<kind>`. */
  function CallbackData(c: Command): string {
    match c
    case RegisterCmd(k) => "registrar_" + KindName(k)
    case StopCmd(k) => "parar_" + KindName(k)
  }

  /**
   The comparison chain of select_service: data is acted on exactly when it is
   `registrar_` or `parar_` followed by one of the four service names.
   */
  function ParseCallback(data: string): Option<Command> {
    if "registrar_" <= data then
      match KindOf(data[10..])
      case Some(k) => Some(RegisterCmd(k))
      case None => None
    else if "parar_" <= data then
      match KindOf(data[6..])
      case Some(k) => Some(StopCmd(k))
      case None => None
    else None
  }

  /** select_service recognises every button's data as the command it was made from. */
  lemma CallbackRoundTrip(c: Command)
    ensures ParseCallback(CallbackData(c)) == Some(c)
  {
    RowForRoundTrip(c.kind, 0);
    match c
    case RegisterCmd(k) =>
      assert CallbackData(c)[10..] == KindName(k);
    case StopCmd(k) =>
      assert CallbackData(c)[6..] == KindName(k);
      assert !("registrar_" <= CallbackData(c)) by { assert CallbackData(c)[0] == 'p'; }
  }

  /** select_service acts on no data other than the eight buttons' own. */
  lemma ParseCallbackOnlyButtons(data: string, c: Command)
    requires ParseCallback(data) == Some(c)
    ensures data == CallbackData(c)
  {
    if "registrar_" <= data {
      assert c == RegisterCmd(KindOf(data[10..]).value);
      PrefixThenRest("registrar_", data);
    } else {
      assert c == StopCmd(KindOf(data[6..]).value);
      PrefixThenRest("parar_", data);
    }
  }

  /** The conversation states of run.py; END is the handler library's end marker. */
  datatype ConvState = Services | Prayers | Mysteries | End

  datatype Button = Button(text: string, callback: string)

  /** The button show_services offers for one service. */
  function Offer(jobs: map<string, Job>, chat: int, k: ServiceKind): Command {
    if JobId(k, chat) in jobs then StopCmd(k) else RegisterCmd(k)
  }

  function Label(c: Command): string {
    match c
    case RegisterCmd(Jaculatoria) => ":white_check_mark: Registrar Jaculatórias"
    case StopCmd(Jaculatoria) => ":x: Parar Jaculatórias"
    case RegisterCmd(Santo) => ":white_check_mark: Registrar Santo do Dia"
    case StopCmd(Santo) => ":x: Parar Santo do Dia"
    case RegisterCmd(Meditacao) => ":white_check_mark: Registrar Meditação Diária"
    case StopCmd(Meditacao) => ":x: Parar Meditação Diária"
    case RegisterCmd(AngelusReginaCaeli) => ":white_check_mark: Registrar Angelus/Regina Caeli"
    case StopCmd(AngelusReginaCaeli) => ":x: Parar Angelus/Regina Caeli"
  }

  function ButtonFor(c: Command): Button {
    Button(Label(c), CallbackData(c))
  }

  /** The keyboard of show_services and the conversation state it moves to. */
  datatype ServiceMenu = ServiceMenu(keyboard: seq<seq<Button>>, next: ConvState)

  /**
   show_services: jaculatória and santo on the first row, meditação and
   angelus on rows of their own. Each service's button registers it exactly
   when the chat has no job for it, and stops it otherwise.
   */
  function ShowServices(jobs: map<string, Job>, chat: int): (m: ServiceMenu)
    ensures m.next == Services
    ensures |m.keyboard| == 3 && |m.keyboard[0]| == 2 && |m.keyboard[1]| == 1 && |m.keyboard[2]| == 1
    ensures m.keyboard[0] + m.keyboard[1] + m.keyboard[2] ==
            seq(4, i requires 0 <= i < 4 => ButtonFor(Offer(jobs, chat, Kinds[i])))
    ensures forall i :: 0 <= i < 4 ==>
      var b := (m.keyboard[0] + m.keyboard[1] + m.keyboard[2])[i];
      (ParseCallback(b.callback) == Some(RegisterCmd(Kinds[i])) <==> JobId(Kinds[i], chat) !in jobs)
      && (ParseCallback(b.callback) == Some(StopCmd(Kinds[i])) <==> JobId(Kinds[i], chat) in jobs)
  {
    var b := seq(4, i requires 0 <= i < 4 => ButtonFor(Offer(jobs, chat, Kinds[i])));
    forall i | 0 <= i < 4
      ensures ParseCallback(b[i].callback) == Some(Offer(jobs, chat, Kinds[i]))
    {
      CallbackRoundTrip(Offer(jobs, chat, Kinds[i]));
    }
    ServiceMenu([[b[0], b[1]], [b[2]], [b[3]]], Services)
  }

  /** A pressed button: the handler's step (when it ran one) and the state the conversation moves to. */
  datatype Selection = Selection(step: Step, next: Option<ConvState>)

  /**
   select_service: the matching handler for the eight known callbacks, no
   change at all for any other data. It ends the conversation, unless the
   handler raised, in which case its `return` is never reached.
   */
  function SelectService(s: State, data: string, chat: int, db: StoreOutcome): (r: Selection)
    ensures ParseCallback(data).None? ==>
      r.step == Step(s, None, None, false) && r.next == Some(End)
    ensures forall k :: ParseCallback(data) == Some(RegisterCmd(k)) ==> r.step == Register(s, k, chat, db)
    ensures forall k :: ParseCallback(data) == Some(StopCmd(k)) ==> r.step == Stop(s, k, chat, db)
    ensures r.next == Some(End) <==> !r.step.raised
    ensures r.next != Some(End) ==> r.next == None
  {
    var step := match ParseCallback(data)
      case None => Step(s, None, None, false)
      case Some(RegisterCmd(k)) => Register(s, k, chat, db)
      case Some(StopCmd(k)) => Stop(s, k, chat, db);
    Selection(step, if step.raised then None else Some(End))
  }

  /**
   The menu toggles: pressing the button show_services offers for a service
   flips whether the chat has a job for it, whatever the store does, and
   leaves every other job alone.
   */
  lemma PressingOfferToggles(s: State, chat: int, i: int, db: StoreOutcome)
    requires 0 <= i < 4
    ensures var m := ShowServices(s.jobs, chat);
            var b := (m.keyboard[0] + m.keyboard[1] + m.keyboard[2])[i];
            var after := SelectService(s, b.callback, chat, db).step.state;
            (JobId(Kinds[i], chat) in after.jobs <==> JobId(Kinds[i], chat) !in s.jobs)
            && OthersUnchanged(s.jobs, after.jobs, JobId(Kinds[i], chat))
  {
    var m := ShowServices(s.jobs, chat);
    var b := (m.keyboard[0] + m.keyboard[1] + m.keyboard[2])[i];
    assert ParseCallback(b.callback) == Some(Offer(s.jobs, chat, Kinds[i]));
  }
}
