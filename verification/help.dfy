/**
 show_help of opus.py: a header followed by one line "<command>: <description> ;"
 per entry of the commands table, in the table's order.
 */
module Help {
  import opened Strings

  datatype CommandHelp = CommandHelp(command: string, description: string)

  /** The header, with the emoji aliases left unexpanded. */
  const HelpHeader := "Abaixo estão as opções oferecidas por esse bot :point_down::point_down:\n\n"

  /** The commands table, in its insertion order (the order a dict iterates in). */
  const Commands: seq<CommandHelp> := [
    CommandHelp("/jaculatoria", "Fornece uma jaculatória aleatória obtida do banco de dados"),
    CommandHelp("/terco", "Fornece os mistérios do terço do dia, junto a imagens de cada mistério e a Ladainha de Nossa Senhora ao final"),
    CommandHelp("/rosario", "Fornece os mistérios do terço especificados pelo usuário"),
    CommandHelp("/santo", "Obtém informações sobre o Santo do Dia a partir do site da Canção Nova"),
    CommandHelp("/meditacao_diaria", "Obtém informações sobre a Meditação Diária do site \"Hablar con Dios\""),
    CommandHelp("/angelus_regina_caeli", "Fornece a oração do Angelus ou Regina Caeli (de acordo com o tempo litúrgico) junto a uma imagem de Nossa Senhora"),
    CommandHelp("/oracoes", "Apresenta uma lista de orações que podem ser enviadas pelo bot"),
    CommandHelp("/registrar_servicos", "Registre ou interrompa serviços como o envio de jaculatórias, Meditação Diária, Santo do Dia e Angelus/Regina Caeli"),
    CommandHelp("/help ou /ajuda", "Mostra a lista de comandos disponíveis"),
    CommandHelp("/contato", "Fornece o contato do desenvolvedor para dúvidas ou sugestões")]

  /** The line of one command. */
  function HelpLine(c: CommandHelp): string {
    c.command + ": " + c.description + " ;\n"
  }

  /** The lines of a list of commands, in order. */
  function Lines(cs: seq<CommandHelp>): string {
    if cs == [] then "" else Lines(cs[..|cs| - 1]) + HelpLine(cs[|cs| - 1])
  }

  /** The last command's line closes the lines of a non-empty list. */
  lemma LinesLast(cs: seq<CommandHelp>)
    requires |cs| > 0
    ensures Lines(cs) == Lines(cs[..|cs| - 1]) + HelpLine(cs[|cs| - 1])
  {
  }

  /** The lines of two lists one after the other are the lines of their concatenation. */
  lemma {:induction false} LinesAppend(a: seq<CommandHelp>, b: seq<CommandHelp>)
    ensures Lines(a + b) == Lines(a) + Lines(b)
    decreases |b|
  {
    if b == [] {
      assert a + b == a;
    } else {
      var ab, front, last := a + b, b[..|b| - 1], b[|b| - 1];
      calc {
        Lines(ab);
      == { LinesLast(ab); assert ab[..|ab| - 1] == a + front && ab[|ab| - 1] == last; }
        Lines(a + front) + HelpLine(last);
      == { LinesAppend(a, front); }
        Lines(a) + Lines(front) + HelpLine(last);
      == { LinesLast(b); }
        Lines(a) + Lines(b);
      }
    }
  }

  /**
   Each command's line sits in the lines right after the lines of the
   commands before it and right before those of the commands after it.
   */
  lemma LinesAt(cs: seq<CommandHelp>, i: int)
    requires 0 <= i < |cs|
    ensures Lines(cs) == Lines(cs[..i]) + HelpLine(cs[i]) + Lines(cs[i + 1..])
  {
    var head, tail := cs[..i + 1], cs[i + 1..];
    calc {
      Lines(cs);
    == { assert cs == head + tail; }
      Lines(head + tail);
    == { LinesAppend(head, tail); }
      Lines(head) + Lines(tail);
    == { assert Lines(head) == Lines(cs[..i]) + HelpLine(cs[i]) by {
           LinesLast(head);
           assert head[..i] == cs[..i] && head[i] == cs[i];
         }
       }
      Lines(cs[..i]) + HelpLine(cs[i]) + Lines(tail);
    }
  }

  /** In the header followed by the lines, each command's line starts right after the header and the lines before it. */
  lemma LineInMessage(header: string, cs: seq<CommandHelp>, i: int)
    requires 0 <= i < |cs|
    ensures OccursAt(header + Lines(cs), HelpLine(cs[i]), |header| + |Lines(cs[..i])|)
  {
    var x, y, z := Lines(cs[..i]), HelpLine(cs[i]), Lines(cs[i + 1..]);
    calc {
      header + Lines(cs);
    == { LinesAt(cs, i); }
      header + (x + y + z);
    ==
      (header + x) + y + z;
    }
    OccursBetween(header + x, y, z);
  }

  /** show_help: the header, then the commands' lines appended one by one. */
  method HelpMessage(cs: seq<CommandHelp>) returns (msg: string)
    ensures msg == HelpHeader + Lines(cs)
    ensures forall i :: 0 <= i < |cs| ==> OccursAt(msg, HelpLine(cs[i]), |HelpHeader| + |Lines(cs[..i])|)
  {
    var lines := "";
    var k := 0;
    while k < |cs|
      invariant 0 <= k <= |cs|
      invariant lines == Lines(cs[..k])
    {
      LinesLast(cs[..k + 1]);
      assert cs[..k + 1][..k] == cs[..k];
      lines := lines + HelpLine(cs[k]);
      k := k + 1;
    }
    assert cs[..k] == cs;
    msg := HelpHeader + lines;
    forall i | 0 <= i < |cs|
      ensures OccursAt(msg, HelpLine(cs[i]), |HelpHeader| + |Lines(cs[..i])|)
    {
      LineInMessage(HelpHeader, cs, i);
    }
  }

  /** show_help itself: the message built from the bot's own commands table. */
  method ShowHelp() returns (msg: string)
    ensures HelpHeader <= msg && msg[|HelpHeader|..] == Lines(Commands)
    ensures forall i :: 0 <= i < |Commands| ==> OccursAt(msg, HelpLine(Commands[i]), |HelpHeader| + |Lines(Commands[..i])|)
  {
    msg := HelpMessage(Commands);
  }
}
