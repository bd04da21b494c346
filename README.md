# Genius game core in Dafny

This project models the game logic of "Genius", a Simon-style memory game written in Java. It covers the files
`src/jogo/genius/Genius.java`, `Botao.java` and `Sequencia.java`, plus the colour enum `Cor.java` as a plain datatype.

- **The pattern.** `Sequencia` is the secret pattern: an append-only list of colours and a replay cursor `indiceSequencia`.
  - Its `processar` plays the pattern back, one step per game tick. It presses the button of the current colour, and it waits while the previous cue is still held.
- **The buttons.** A `Botao` is either pressed or released. While pressed it counts its hold time and releases itself once that time is strictly above one second. On release it tells the game.
- **The game.** `Genius` has two phases:
  - `TOCANDO`: the pattern is played back.
  - `OUVINDO`: mouse clicks press buttons. They are counted in `indPressionamento`, and each released press is checked against the pattern. A wrong colour ends the game. A complete correct answer grows the pattern by one colour and starts the next playback.

The model has two layers.

- **Values.** The state of each entity is a datatype: `BotaoValor`, `SeqValor` and `JogoValor`. Each Java method is a function on these values: `Pressiona`, `Processa`, `Toca`, `Clique`, `Passo`, and so on. The properties of the game are lemmas about these functions.
  - `Inv` is the invariant of every reachable game state. It is what proves that `estaCorreta` is never asked about an index outside the pattern.
- **Objects.** The classes `Botao`, `Sequencia` and `Genius` keep the same state in mutable fields, as the Java objects do. Each method is proved to change its state exactly as its function says (`Valor() == Spec(old(Valor()))`). `Genius` also keeps `Inv` as its class invariant.

Inputs the logic takes from outside are parameters:

- The random colour of `Cor.sortear()` is `primeira` in the constructors, and `sorteada` in `Genius.Processar`, `TrocarEstado` and `Sequencia.Adicionar`.
- The elapsed time of a tick is `segundos`, a `real`.
- The click position is a `Ponto` with integer pixel coordinates.

Event delivery by the Swing frame and the game loop of `Principal.java` is modelled as a serialized trace of events (`Evento`, `Aplica`, `Executa`). `Aplica` drops every tick that arrives after the game has ended. The loop tests `terminou()` before each tick, but it is not guaranteed to stop ticking. A window close from the Swing thread can land between that test and the call to `processar`. The ended game then gets one more tick, and `processar` never reads `terminou`. That tick can still switch the phase or grow the pattern, and the model does not include it.

The round hit-test `Ellipse2D.Float(x, y, d, d).contains` is modelled exactly over integers, by multiplying its inequality out by `4 d²`. With this test, the fixed layout of the four buttons is proved not to overlap, so a click presses at most one button.

## Model

| member | source | states |
|---|---|---|
| Cores.Ordinal | src/jogo/genius/Cor.java:17-21 | the ordinal follows declaration order: it is below 4, and `Valores[Ordinal(c)] == c`, so no two colours share a button index |
| Botoes.ContemNoQuadrado | src/jogo/genius/Botao.java:109-111 | a point inside the round shape lies strictly inside its bounding square |
| Botoes.Pressiona | src/jogo/genius/Botao.java:41-52 | pressing keeps colour and shape and leaves the button pressed; on a pressed button it changes nothing (no timer reset, no new tone); on a released one it resets the timer to 0 and starts the tone once |
| Botoes.Processa | src/jogo/genius/Botao.java:61-75 | a released button is unchanged and reports nothing; a pressed one adds `segundos` to its timer; it releases and reports exactly when the new time is strictly above 1.0; a button still held after the tick has time at most 1.0 |
| Botoes.SoltoNaoNotifica | src/jogo/genius/Botao.java:61-65 | a released button, left alone over any run of ticks, stays as it is and never reports a release |
| Botoes.LiberaNoMaximoUmaVez | src/jogo/genius/Botao.java:29-75 | over any run of non-negative ticks, a press reports its release at most once; it does so if and only if the total hold time ends strictly above 1.0, and otherwise the button is still pressed |
| Botoes.Botao.constructor | src/jogo/genius/Botao.java:31-36 | a new button has the given colour and shape, is released, and has no time held |
| Botoes.Botao.Pressionar | src/jogo/genius/Botao.java:41-52 | the object's new state is `Pressiona` of its old state |
| Botoes.Botao.Processar | src/jogo/genius/Botao.java:61-75 | the new state and the release flag are `Processa` of the old state |
| Botoes.Botao.Contem | src/jogo/genius/Botao.java:109-111 | the button contains a point exactly when its round shape does, and such a point lies strictly inside the bounding square |
| Botoes.Botao.EstaPressionado | src/jogo/genius/Botao.java:113-115 | true exactly when the button's state is pressed |
| Botoes.PressionarEm | src/jogo/genius/Sequencia.java:47 | pressing button `k` of a list of distinct buttons changes that button as `Pressiona` and no other |
| Botoes.ProcessarEm | src/jogo/genius/Genius.java:99-100 | advancing button `k` of a list of distinct buttons changes that button as `Processa` and no other |
| Sequencias.Inicial | src/jogo/genius/Sequencia.java:7-13 | a new pattern has exactly the one entry `primeira` and the cursor at -1 (finished) |
| Sequencias.Adiciona | src/jogo/genius/Sequencia.java:15-17 | appending grows the pattern by exactly one, keeps every existing entry and the cursor, and puts the new colour last |
| Sequencias.Proximo | src/jogo/genius/Sequencia.java:27-53 | the cursor move: from -1 to 0; otherwise one step forward, wrapping to -1 after the last entry; the cursor stays in `[-1, size-1]` |
| Sequencias.SeqValor.EstaCorreta | src/jogo/genius/Sequencia.java:19-21 | a missing colour (`null`) is never correct; a colour is correct exactly when it is the pattern's entry at that index |
| Sequencias.RespostaCerta | src/jogo/genius/Sequencia.java:15-21 | exactly one colour is accepted at each index; a whole answer passes every index if and only if it equals the pattern; appending a colour never changes the verdict at an existing index |
| Sequencias.Toca | src/jogo/genius/Sequencia.java:27-53 | a playback step never changes the pattern and keeps the cursor in `[-1, size-1]`; at most one button changes, the one of the current entry, and only by being pressed |
| Sequencias.TocaEfeito | src/jogo/genius/Sequencia.java:27-53 | a finished pattern is only armed at entry 0 and no button is pressed; a step whose previous cue is still held changes nothing; any other step presses exactly the button of the current entry and moves the cursor on |
| Sequencias.ReproduzRestante | src/jogo/genius/Sequencia.java:47-52 | from cursor `c`, `size - c` steps that do not wait press the remaining entries in order and end finished |
| Sequencias.CursorAvanca | src/jogo/genius/Sequencia.java:47-52 | while fewer than `size - c` steps have run from cursor `c`, the cursor is `c` plus the number of steps |
| Sequencias.ReproducaoCompleta | src/jogo/genius/Sequencia.java:27-57 | from the finished state, a pattern of `n` entries is played by exactly `n + 1` steps that do not wait; they press the whole pattern in order, and `acabou()` holds after step `n + 1` and at no step from 1 to `n` |
| Sequencias.Sequencia.constructor | src/jogo/genius/Sequencia.java:10-13 | the new object's state is `Inicial(primeira)` |
| Sequencias.Sequencia.Adicionar | src/jogo/genius/Sequencia.java:15-17 | the new state is `Adiciona` of the old one |
| Sequencias.Sequencia.EstaCorreta | src/jogo/genius/Sequencia.java:19-21 | the object's verdict, taken on its fields, is the verdict of its value |
| Sequencias.Sequencia.Acabou | src/jogo/genius/Sequencia.java:55-57 | true exactly when the object's value is finished (cursor -1) |
| Sequencias.Sequencia.Tamanho | src/jogo/genius/Sequencia.java:59-61 | the number of entries of the object's value |
| Sequencias.Sequencia.Processar | src/jogo/genius/Sequencia.java:27-53 | the new pattern state and the new states of the buttons passed in are `Toca` of the old ones |
| Jogo.LayoutDisjunto | src/jogo/genius/Genius.java:41-47 | no point lies inside two of the four circles of the fixed layout |
| Jogo.AlgumPressionado | src/jogo/genius/Genius.java:57-63 | false exactly when every button is released |
| Jogo.Atingidos | src/jogo/genius/Genius.java:82-87 | the number of buttons containing the point is at most the number of buttons, and zero exactly when no button contains it |
| Jogo.AtingidosTestemunha | src/jogo/genius/Genius.java:82-87 | if some button contains the point, one of them is named; otherwise none contains it |
| Jogo.AtingidosNoMaximoUm | src/jogo/genius/Genius.java:82-87 | when no two buttons share a point, a click is inside at most one button |
| Jogo.BotoesIniciais | src/jogo/genius/Genius.java:41-47 | button `i` has colour `Valores[i]`, the circle of diameter 100 at `(X[i], Y[i])`, and is released |
| Jogo.Novo | src/jogo/genius/Genius.java:21-48 | a new game satisfies the invariant; it is in playback, not ended, with no press counted, a one-colour finished pattern and no button held |
| Jogo.Soltou | src/jogo/genius/Genius.java:171-177 | a release is ignored during playback; while listening it clears the held flag and records the released colour |
| Jogo.Trocar | src/jogo/genius/Genius.java:140-154 | playback becomes listening with the count at -1 and no last colour; listening becomes playback with the new colour appended |
| Jogo.ProcessaUm | src/jogo/genius/Genius.java:99-100 | one timer-loop iteration replaces button `i` by `Processa` of itself; a release while listening lowers the held flag and records the button's colour; otherwise flag and colour are kept; phase, end flag, pattern and count never change |
| Jogo.ProcessaBotoes | src/jogo/genius/Genius.java:99-100 | the timer loop keeps the phase, the end flag, the pattern, the count and the number of buttons |
| Jogo.ProcessaBotoesEfeito | src/jogo/genius/Genius.java:99-100 | every button advances by `Processa`; during playback releases are ignored; while listening, a flag still up means no button released, and a flag that was up and is now down means some button released |
| Jogo.PressionaUm | src/jogo/genius/Genius.java:83-87 | one click-loop iteration counts and presses button `i` and raises the flag when the button contains the point, and changes nothing otherwise |
| Jogo.PressionaAtingidos | src/jogo/genius/Genius.java:82-87 | the click loop keeps the phase, the end flag, the pattern, the last colour and the number of buttons, and never lowers the count |
| Jogo.PressionaAtingidosEfeito | src/jogo/genius/Genius.java:82-87 | the click loop presses every button that contains the point, with no stop after the first, and leaves the others; it adds one to the count per such button and raises the flag if there was one |
| Jogo.Clique | src/jogo/genius/Genius.java:66-88 | a click during playback, or while any button is actually held, changes nothing; otherwise the count grows by the number of buttons hit, each hit button is pressed, and phase, pattern, end flag and last colour are kept |
| Jogo.CliqueUnico | src/jogo/genius/Genius.java:66-88 | with the fixed layout, a click inside button `k` while listening with no button held presses `k` alone and adds exactly one to the count |
| Jogo.Fecha | src/jogo/genius/Genius.java:90-94 | closing the window ends the game and changes nothing else |
| Jogo.Passo | src/jogo/genius/Genius.java:98-138 | a tick may end the game only while listening, and then the phase and pattern are kept; the pattern grows by the drawn colour exactly when a round is completed and is unchanged otherwise; the next playback then starts from the finished cursor; playback becomes listening in the same tick the pattern finishes, with the count reset and no last colour; within a phase the count is unchanged |
| Jogo.Tocar | src/jogo/genius/Genius.java:102-111 | during playback, the pattern and the buttons take one `Toca` step; the phase switches to listening exactly when the pattern is finished, and then the count is -1 and there is no last colour; otherwise count and colour are kept; the end flag and held flag are kept |
| Jogo.Julgar | src/jogo/genius/Genius.java:112-136 | while listening, a held press or no press yet changes nothing; otherwise a wrong colour only ends the game, the right colour at the last index switches to playback with the pattern grown by the drawn colour, and the right colour earlier changes nothing; the buttons, count, flag and last colour are never changed |
| Jogo.JulgaResposta | src/jogo/genius/Genius.java:121-136 | while listening, a released press is judged: a wrong colour ends the game; a right colour at the last index switches to playback with the pattern grown by one, its cursor finished so the next playback replays it from the start; a right colour earlier changes nothing but the buttons |
| Jogo.SemResposta | src/jogo/genius/Genius.java:112-119 | while listening, a tick with a press still held, or before any press, only advances the buttons |
| Jogo.PassoPreservaInv | src/jogo/genius/Genius.java:98-138 | every tick keeps the invariant; in particular `estaCorreta` is only called with an index inside the pattern, and the cursor rests finished while listening |
| Jogo.TocarPreservaInv | src/jogo/genius/Genius.java:102-110 | a playback step keeps the invariant, including the switch to listening |
| Jogo.CliquePreservaInv | src/jogo/genius/Genius.java:66-88 | every click keeps the invariant |
| Jogo.Aplica | src/jogo/genius/Principal.java:56-61 | each event keeps the invariant; ticks on an ended game are dropped, so a game that has ended stays ended, with its phase and pattern unchanged |
| Jogo.Executa | src/jogo/genius/Principal.java:45-82 | any run of events keeps the invariant |
| Jogo.TerminoDefinitivo | src/jogo/genius/Genius.java:90-127 | once ended, the game stays ended, whatever events follow; with ticks on an ended game dropped, its phase and pattern never change again |
| Jogo.SequenciaSoCresce | src/jogo/genius/Genius.java:148-153 | over any run the pattern only grows: the old pattern is a prefix of the new one, which is never empty |
| Jogo.NenhumPressionado | src/jogo/genius/Genius.java:98-100 | a tick with no button held leaves the game exactly as it was |
| Jogo.UmSolta | src/jogo/genius/Genius.java:98-100 | a tick in which one button is held past the limit releases it and reports its colour, and changes nothing else |
| Jogo.TresTiques | src/jogo/genius/Genius.java:98-111 | from a new game with first colour green, three ticks arm the playback, press green, switch to listening and release the cue |
| Jogo.CliqueResposta | src/jogo/genius/Genius.java:66-88 | after those ticks, a click inside button `k` presses it as the first answer |
| Jogo.SoltaResposta | src/jogo/genius/Genius.java:112-136 | releasing that answer completes the round when `k` is green, and ends the game otherwise |
| Jogo.RodadaCerta | src/jogo/genius/Genius.java:66-138 | a whole first round answered on the green circle ends in playback, not ended, with the pattern `[green, blue]` |
| Jogo.RodadaErrada | src/jogo/genius/Genius.java:66-138 | the same round answered on the blue circle ends the game while listening, with the pattern `[green]` |
| Jogo.CriarBotoes | src/jogo/genius/Genius.java:45-47 | the layout loop creates four new, distinct buttons whose states are `BotoesIniciais()` |
| Jogo.Genius.Terminou | src/jogo/genius/Genius.java:53-55 | the end flag of the game's value |
| Jogo.Genius.constructor | src/jogo/genius/Genius.java:21-48 | the new game's state is `Novo(primeira)` and keeps the class invariant |
| Jogo.Genius.TemBotaoPressionado | src/jogo/genius/Genius.java:57-63 | the result is true if and only if some button is actually pressed |
| Jogo.Genius.ProcessarCliqueDoMouse | src/jogo/genius/Genius.java:66-88 | the new state is `Clique` of the old one, and the invariant is kept |
| Jogo.Genius.PressionarAtingidos | src/jogo/genius/Genius.java:82-87 | the click loop changes the state as `PressionaAtingidos` |
| Jogo.Genius.PressionarSeAtingido | src/jogo/genius/Genius.java:83-87 | one iteration of the click loop changes the state as `PressionaUm` |
| Jogo.Genius.ProcessarEventoDeJanela | src/jogo/genius/Genius.java:90-94 | the new state is `Fecha` of the old one |
| Jogo.Genius.Processar | src/jogo/genius/Genius.java:98-138 | the new state is `Passo` of the old one, and the invariant is kept |
| Jogo.Genius.TocarSequencia | src/jogo/genius/Genius.java:103-110 | the playback branch changes the state as `Tocar` |
| Jogo.Genius.ConferirResposta | src/jogo/genius/Genius.java:112-136 | the listening branch changes the state as `Julgar` |
| Jogo.Genius.ProcessarBotoes | src/jogo/genius/Genius.java:99-100 | the timer loop changes the state as `ProcessaBotoes` |
| Jogo.Genius.ProcessarBotao | src/jogo/genius/Genius.java:99-100 | one iteration of the timer loop changes the state as `ProcessaUm`, with the release reported to the game |
| Jogo.Genius.TrocarEstado | src/jogo/genius/Genius.java:140-154 | the new state is `Trocar` of the old one |
| Jogo.Genius.BotaoSoltou | src/jogo/genius/Genius.java:171-177 | the new state is `Soltou` of the old one for the button's colour |

## Left out

- Rendering is not modelled: every `desenhar` method, the Swing frame, the buffer strategy and `JOptionPane.showMessageDialog`. They are I/O. The mistake branch keeps only `terminou = true`.
- Audio and AWT colours of `Cor` are not modelled. `tocarSom` is a counter `toques` on each button, so the claim that a press does not re-trigger the tone can be stated.
- `java.util.Random` in `Cor.sortear()` is not modelled. The drawn colour is a parameter.
- IEEE floating point is not modelled. Times are exact `real`s, and the hit-test is the exact integer form of the ellipse inequality.
- `Thread.sleep`, `System.currentTimeMillis`, `System.exit` and the Swing event thread are not modelled. Events are a serialized trace, and a tick's length is its `segundos` field.
- `Sequencia.limpar` is not modelled. Nothing calls it, and it would break the non-empty and cursor-range invariants.
- `Principal.java` is not part of this model, except its loop, which tests `terminou()` before each tick. `Aplica` models that test by dropping ticks on an ended game, which leaves out the race with a window close.
- Jogo.Genius.Processar: requires `!terminou`, and so does `Jogo.Passo`. The only caller is the loop of Principal.java:56-61, which tests `terminou()` before each tick. An ended game can still get one tick, when a window close lands between that test and `processar`, and `Aplica` drops that tick. In Java, a click after a mistake at the last index could make `indPressionamento` equal to the pattern's size, and a further tick would then index the pattern out of range.
- Jogo.TerminoDefinitivo: its promise that the phase and the pattern stay fixed after the end rests on `Aplica` dropping ticks on an ended game. `Genius.processar` itself never checks `terminou`. The one tick that can follow a window close landing between the loop's test and the call could still switch the phase or grow the pattern.
- Jogo.Genius.PressionarSeAtingido: presses the button before incrementing `indPressionamento` and setting `botaoPressionado`, which Java does on either side of `pressionar()`. `pressionar` reads no field of the game, so the final state is the same.
- Botoes.Botao: the back-reference to the game is not a field. `processar` returns the release flag instead, and the game's own `BotaoSoltou` handles it. `getCor` is the immutable field `cor`.
- Jogo.Genius.Processar, Jogo.Genius.TocarSequencia, Jogo.Genius.ConferirResposta, Jogo.Genius.ProcessarBotoes, Jogo.Genius.ProcessarBotao, Jogo.Genius.PressionarAtingidos and Jogo.Genius.PressionarSeAtingido: the two `switch` branches and the loop bodies of `processar` and `processarCliqueDoMouse` are separate methods. The branches and iterations are the same as in Java.
