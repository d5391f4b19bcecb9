# Microprocessor lab programs, modelled in Dafny

This project models the game and input logic of seven lab programs for a
Nuvoton NUC140 board with a 128 x 64 LCD, a 4-digit seven-segment display,
four LEDs on PC12 .. PC15, a 3 x 3 keypad and an analog joystick:

- **Snake** (`Lab-9/Q1.c`, `Lab-9/Q2.c`, `Lab-9/Q2-final.c`). The snake moves on a
  64 x 32 grid and is steered by a joystick whose samples pass through
  a dead-zone and anti-reversal filter.
  - `Lab-9/Q1.c` has a fixed body of 16 segments. A wall only refuses the
    move, and a centred stick requests STOP.
  - `Lab-9/Q2.c` and `Lab-9/Q2-final.c` add a fruit, a score that rises by
    10 per fruit and a body that grows up to 100 segments. A wall or a bite
    ends the game.
  - `Lab-9/Q2.c` shows the score from a blocking scan loop.
  - `Lab-9/Q2-final.c` keeps a display buffer, which a timer interrupt
    scans one digit at a time.
- **Number picker** (`Lab-6/Q1.c`). The LCD shows four random two-digit
  numbers, drawn by a linear congruential generator. Keys act on release:
  - UP/DOWN move a cursor in a three-row window;
  - SELECT adds the marked number to a sum, at most four times;
  - BACK undoes the last selection, CLEAR drops all of them, and RESET draws
    new numbers;
  - the LEDs count the selections.
- **Number race** (`Lab-8/Q1_LanceVer.c`, `Lab8/Q1.c`). Four distinct digits
  1 .. 9 race to column 120. The larger the digit, the faster it runs
  (8, 6, 4 or 2 pixels a step). The LED of the first arrival lights up.
- **Ball game** (`Lab-8/Q2.c`). A ball bounces off the side walls, the top
  wall, a fixed obstacle and a paddle. The paddle follows a potentiometer
  through an averaged ADC reading. The game is an INIT / PLAYING /
  GAMEOVER state machine.

Layout:

| file | module | content |
|---|---|---|
| `joystick.dfy` | `Joystick` | the direction filter of `update_Joystick_Logic`, in both variants |
| `snake_body.dfy` | `SnakeBody` | cells, moves, growth, the array shift and scan, and the fruit spawner |
| `snake_game.dfy` | `SnakeGame` | the growing snake's state as a value, with its invariant |
| `snake_engine.dfy` | `SnakeEngine` | the globals of the growing snake as a class over `snake_x`/`snake_y` arrays |
| `snake_q2.dfy` | `SnakeQ2` | the Lab-9/Q2 main loop pass with its blocking digit scan |
| `snake_final.dfy` | `SnakeFinal` | the Lab-9/Q2-final console: engine, display buffer, timer interrupt |
| `score_digits.dfy` | `ScoreDigits` | the score's decimal slots and the seven-segment scan |
| `snake_fixed.dfy` | `SnakeFixed` | Lab-9/Q1 as a value and as a class |
| `number_picker.dfy` | `NumberPicker` | Lab-6/Q1: the random generator, the key switch, the LCD lines and the `Board` class |
| `decimal_text.dfy` | `DecimalText` | `simple_itoa` and the 16-column line builder |
| `number_race.dfy` | `NumberRace` | Lab-8 race: digit draw, exchange sort, speeds, the race loop, the `Race` class |
| `ball_game.dfy` | `BallGame` | Lab-8/Q2: collision, paddle mapping, the state machine, the `Console` class |
| `arith.dfy`, `counting.dfy` | `Arith`, `Counting` | helper facts about division and cardinality |

The specification of each C function is a Dafny function on values. Each
routine that loops over arrays or updates globals is a class method, proved
against that function. In the model, randomness, the ADC and the keys are
parameters:

- the `rand()` results are a sequence of draws;
- the joystick and potentiometer conversions are samples;
- the key waits are the history of samples taken while waiting.

Each member is modelled once and cited once; the sibling programs repeat
the same code:
- `Lab-9/Q2.c` has the joystick filter (174-198), `spawn_Fruit` (126-149),
  `init_Game` (151-172, without the display update) and the move (245-304)
  of `Lab-9/Q2-final.c`.
- `Lab8/Q1.c` has `LED_On` (60-66), `LED_OffAll` (68-71),
  `all_done` (83-89), `generate_numbers` (92-144) and the race loop
  (171-199) of `Lab-8/Q1_LanceVer.c`, with the same `RIGHT_BOUND`.

Where the code behaves differently from what one might expect, or from a
comment next to it, the model follows the code:

- Eating at full length (100 segments) in `Lab-9/Q2.c` and
  `Lab-9/Q2-final.c` does not skip growth. The code keeps `current_len` at
  100 and writes the new head into slot 99, over the old head, without
  shifting. The tail stays and the chain of segments breaks
  (`SnakeBody.FullGrowBreaksChain`, `SnakeGame.FullMealOverwritesHead`).
- The self-collision scan compares against indices 0 .. len-2. It includes
  the tail, which is about to move away, and excludes only the head
  (`SnakeBody.Bites`).
- Walls in `Lab-9/Q1.c`. A wall only refuses the move and the game goes on.
  Only a bite sets `game_over` (`SnakeFixed.OnlyBitesEndTheGame`). In the two
  growing variants a wall ends the game.
- `Lab8/Q1.c` line 9 comments `128 - 8 = 112`, but `RIGHT_BOUND` is 120. The
  model uses 120, as does `Lab-8/Q1_LanceVer.c`.

## Model

| member | source | states |
|---|---|---|
| Joystick.Requested | Lab-9/Q2-final.c:208-214 | the requested direction is never STOP; the axis with the larger offset wins, ties going to the vertical axis, and the sign picks RIGHT/LEFT or DOWN/UP (each direction characterised both ways) |
| Joystick.HoldFilter | Lab-9/Q2-final.c:198-222 | inside the dead zone next_dir is kept; a reversal of current_dir is ignored; otherwise the request becomes next_dir; a non-STOP next_dir never becomes STOP |
| Joystick.StopFilter | Lab-9/Q1.c:105-142 | the Lab-9/Q1 variant: the dead zone sets next_dir to STOP; otherwise as the other filter |
| Joystick.ReversalIsOpposite | Lab-9/Q1.c:136-139 | the four guards reject exactly the request opposite to a non-STOP current direction |
| Joystick.HoldFilterNeverReverses | Lab-9/Q2-final.c:216-221 | the filter never stores a fresh request that reverses the current direction |
| Joystick.HoldFilterIdempotent | Lab-9/Q2-final.c:198-222 | running the filter twice on the same samples changes nothing more |
| Joystick.FiltersAgreeOutsideDeadZone | Lab-9/Q1.c:120-123 | the two variants agree outside the dead zone; inside it one stores STOP and the other keeps next_dir |
| Joystick.RailSamplesSteer | Lab-9/Q2-final.c:200-206 | a sample at 0 or 4095 on either axis is outside the dead zone |
| SnakeBody.Advance | Lab-9/Q2-final.c:281-287 | the candidate head is exactly one cell away in the moving direction (none for STOP), on the right side of the old head |
| SnakeBody.AdvanceOpposite | Lab-9/Q2-final.c:281-287 | one step in a direction and one in its opposite return to the start cell |
| SnakeBody.Slide | Lab-9/Q2-final.c:318-325 | a plain move keeps the length, drops the tail, shifts every segment down one index and puts the new head last |
| SnakeBody.Grow | Lab-9/Q2-final.c:310-313 | eating below 100 segments appends the new head; at 100 the length stays and the new head overwrites the slot of the old head |
| SnakeBody.SlideKeepsBody | Lab-9/Q2-final.c:289-325 | a move onto an in-grid cell that is not bitten keeps the body inside the grid and free of overlaps |
| SnakeBody.SlideKeepsWellformed | Lab-9/Q2.c:263-297 | such a move onto a cell other than the fruit keeps the fruit off the body |
| SnakeBody.GrowKeepsBody | Lab-9/Q2-final.c:305-316 | eating keeps the body inside the grid and free of overlaps |
| SnakeBody.SlideKeepsConnected | Lab-9/Q2-final.c:318-325 | a move onto a neighbour of the head keeps consecutive segments adjacent |
| SnakeBody.GrowKeepsConnected | Lab-9/Q2-final.c:310-313 | growing below capacity keeps the chain unbroken |
| SnakeBody.AdjacentParity | Lab-9/Q2-final.c:281-287 | a single step flips the parity of x + y |
| SnakeBody.FullGrowBreaksChain | Lab-9/Q2-final.c:310-313 | eating at 100 segments leaves two non-adjacent consecutive segments: head slot 99 is overwritten |
| SnakeBody.InitialBody | Lab-9/Q2-final.c:174-196 | the starting body is 16 segments at x = 24 .. 39, y = 16, in the grid, distinct and connected |
| SnakeBody.Zip | Lab-9/Q2-final.c:36-51 | the parallel snake_x / snake_y arrays hold cell i at index i |
| SnakeBody.ZipSlide | Lab-9/Q2-final.c:319-324 | the shifted arrays with the new head hold the Slide of the old body |
| SnakeBody.ZipTake | Lab-9/Q2-final.c:295 | the first n coordinate pairs hold the first n cells |
| SnakeBody.ZipAppend | Lab-9/Q2-final.c:312-313 | storing one more coordinate pair appends one cell |
| SnakeBody.Occupies | Lab-9/Q2-final.c:295-301 | the scan loop reports a hit exactly when the cell is among the first n segments |
| SnakeBody.ShiftAppend | Lab-9/Q2-final.c:319-324 | the in-place shift leaves indices 0 .. n-2 holding the old 1 .. n-1, the new head at n-1 and the rest of the arrays untouched |
| SnakeBody.Reduce | Lab-9/Q2-final.c:159-160 | rand() % GRID_W, rand() % GRID_H is always a grid cell |
| SnakeBody.FirstFreeIndex | Lab-9/Q2-final.c:157-168 | the accepted attempt is the first whose cell is off the body; every earlier one was on it |
| SnakeBody.Spawned | Lab-9/Q2-final.c:149-172 | the fruit lands inside the grid and off the body |
| SnakeBody.CoversHasFree | Lab-9/Q2-final.c:157-168 | draws reaching more cells than a snake of at most 100 segments occupies always give an accepted attempt |
| SnakeBody.PickFreeCell | Lab-9/Q2.c:126-149 | the rejection loop over the arrays returns the first draw off the first n segments |
| Counting.Elements | Lab-9/Q2-final.c:162-167 | the set of cells the body occupies, exactly the cells at its positions |
| Counting.ElementsBound | Lab-9/Q2-final.c:162-167 | a body occupies at most as many cells as it has segments |
| Counting.SubsetBound | Lab-9/Q2-final.c:157-168 | a subset is no larger than its superset |
| Counting.Pigeonhole | Lab-9/Q2-final.c:157-168 | more reachable cells than segments leaves a free cell |
| SnakeGame.LenForScore | Lab-9/Q2-final.c:307-310 | the length after a score: 16 plus one per fruit, capped at 100, reaching 100 exactly from the 84th fruit |
| SnakeGame.Reset | Lab-9/Q2-final.c:174-196 | init_Game: the initial body, score 0, game_over 0, both directions RIGHT, the fruit spawned off the body, and a valid state |
| SnakeGame.Step | Lab-9/Q2-final.c:271-334 | a move keeps the invariant; current_dir takes next_dir; the game ends exactly on a wall or a bite, leaving body, fruit and score; eating adds 10 and grows; otherwise the body slides |
| SnakeGame.Tick | Lab-9/Q2-final.c:256-337 | a main loop pass (reset key, game-over freeze, joystick, move) keeps the invariant |
| SnakeGame.OverFreezes | Lab-9/Q2-final.c:264-267 | with game_over set and no reset key, a pass changes nothing |
| SnakeGame.ResetRestarts | Lab-9/Q2-final.c:258-261 | after the reset key the pass continues from init_Game's state |
| SnakeGame.RunningGameMoves | Lab-9/Q2-final.c:269-271 | in a running game next_dir is never STOP, so every pass moves the snake |
| SnakeGame.NoReversalIntoNeck | Lab-9/Q2-final.c:216-221 | the filtered direction never steers the head onto the segment behind it |
| SnakeGame.AdvanceBack | Lab-9/Q2-final.c:281-287 | two steps that return to the start cell are opposite directions |
| SnakeGame.FullExactlyFromFullScore | Lab-9/Q2-final.c:310 | the body is at 100 segments exactly when the score is at least 840 |
| SnakeGame.FullMealOverwritesHead | Lab-9/Q2-final.c:310-313 | a meal at full length keeps 100 segments, keeps the first 99, and the old head cell disappears from the body |
| SnakeEngine.Engine.constructor | Lab-9/Q2-final.c:36-51 | the arrays exist and the globals equal init_Game's state |
| SnakeEngine.Engine.InitGame | Lab-9/Q2.c:151-172 | init_Game over the arrays yields SnakeGame.Reset |
| SnakeEngine.Engine.UpdateJoystick | Lab-9/Q2-final.c:198-222 | the method stores HoldFilter's value in next_dir and changes nothing else |
| SnakeEngine.Engine.Step | Lab-9/Q2-final.c:271-334 | the move over the arrays yields SnakeGame.Step; its outcome is the classification of the target cell |
| SnakeEngine.Engine.Probe | Lab-9/Q2-final.c:289-302 | off-grid exactly when outside the grid; bitten exactly when the cell is among segments 0 .. len-2 |
| SnakeEngine.Engine.Eat | Lab-9/Q2-final.c:305-316 | score + 10, len + 1 below 100, the body grown, and the fruit respawned off the new body |
| SnakeEngine.Engine.Shift | Lab-9/Q2-final.c:317-326 | the arrays hold the Slide of the old body |
| SnakeQ2.Tick | Lab-9/Q2.c:230-308 | a main loop pass yields SnakeGame.Tick; the digits lit are 125 scan passes of 0 after a reset, then 50 scan passes of the new score |
| SnakeFinal.Console.constructor | Lab-9/Q2-final.c:36-51 | power-on: the engine in init_Game's state, the buffer [0, -1, -1, -1], scan index 0 |
| SnakeFinal.Console.UpdateScoreDisplay | Lab-9/Q2-final.c:96-112 | the buffer holds Slots(val) |
| SnakeFinal.Console.InitGame | Lab-9/Q2-final.c:174-196 | init_Game resets the game and the buffer shows 0 |
| SnakeFinal.Console.TimerTick | Lab-9/Q2-final.c:55-71 | the interrupt lights slot scanIndex unless it is blank, then advances the index mod 4; the buffer still shows the score |
| SnakeFinal.Console.Tick | Lab-9/Q2-final.c:256-337 | a main loop pass yields SnakeGame.Tick, and the buffer keeps showing the current score |
| ScoreDigits.Slots | Lab-9/Q2-final.c:96-112 | slot 0 is the ones digit; slot k is blank exactly when val < 10^k, else digit k of val |
| ScoreDigits.DigitSeq | Lab-9/Q2.c:62-65 | digit i of n at position i |
| ScoreDigits.DigitSum | Lab-9/Q2.c:62-65 | digits 0 .. k-1 add back up to n mod 10^k |
| ScoreDigits.PrefixShown | Lab-9/Q2-final.c:96-112 | the number read from a buffer depends only on its first k slots |
| ScoreDigits.SlotsShowScore | Lab-9/Q2-final.c:96-112 | reading the buffer back (blanks as 0) gives the score mod 10000 |
| ScoreDigits.SlotsNoLeadingZero | Lab-9/Q2-final.c:96-112 | blanks are exactly the leading positions; below 10000 the highest lit digit is not 0 |
| ScoreDigits.NextScan | Lab-9/Q2-final.c:69-70 | g_ScanIndex steps through 0 .. 3 cyclically |
| ScoreDigits.ScanShow | Lab-9/Q2-final.c:64-66 | an interrupt lights at most one digit: slot i with its value, and nothing for a blank |
| ScoreDigits.ScanRoundRobin | Lab-9/Q2-final.c:69-70 | four interrupts return to the start and visit every position once |
| ScoreDigits.FrameMatchesBuffer | Lab-9/Q2.c:67-88 | one pass of the blocking scan lights the same digits as four interrupts over the buffer |
| ScoreDigits.Repeat | Lab-9/Q2.c:67 | n repetitions of a frame have n times its length, start and end with the frame, and repeat with the frame's period |
| ScoreDigits.DelayAndScan | Lab-9/Q2.c:49-89 | Game_Delay_and_Scan lights delay_cnt / 4000 frames of the score's digits |
| ScoreDigits.ScanPass | Lab-9/Q2.c:69-88 | one pass of the scan loop lights digit 0 and then digits 1, 2, 3 only when the score has them, which is one frame |
| SnakeFixed.Init | Lab-9/Q1.c:82-102 | init_Snake: the initial 16 segments, game_over clear, both directions RIGHT, the invariant |
| SnakeFixed.Move | Lab-9/Q1.c:200-257 | a wall leaves the body and keeps playing; a bite of indices 0 .. 14 ends the game; otherwise the body slides; the invariant is kept; current_dir takes next_dir |
| SnakeFixed.Pass | Lab-9/Q1.c:183-260 | a main loop pass keeps the invariant |
| SnakeFixed.DeadZoneHalts | Lab-9/Q1.c:120-123 | a centred stick only records STOP: the snake does not move |
| SnakeFixed.StopKeepsHeading | Lab-9/Q1.c:197-208 | after a pass current_dir is the filter's choice when that is not STOP, and stays the old heading when the filter requests STOP |
| SnakeFixed.OverFreezes | Lab-9/Q1.c:192-195 | with game_over set and no reset key, a pass changes nothing |
| SnakeFixed.ResetClears | Lab-9/Q1.c:185-189 | the reset key restarts from init_Snake with game_over cleared |
| SnakeFixed.OnlyBitesEndTheGame | Lab-9/Q1.c:219-233 | a pass ends the game only by an in-grid bite |
| SnakeFixed.Snake.constructor | Lab-9/Q1.c:181 | the arrays in init_Snake's state with game_over clear |
| SnakeFixed.Snake.InitSnake | Lab-9/Q1.c:82-102 | the loop stores the initial body; both directions RIGHT |
| SnakeFixed.Snake.UpdateJoystick | Lab-9/Q1.c:105-142 | the method stores StopFilter's value in next_dir |
| SnakeFixed.Snake.Step | Lab-9/Q1.c:200-257 | the move over the arrays yields SnakeFixed.Move |
| SnakeFixed.Snake.Tick | Lab-9/Q1.c:183-260 | a main loop pass over the arrays yields SnakeFixed.Pass |
| NumberPicker.LcgNext | Lab-6/Q1.c:73-81 | the next seed is below 2^31 and follows the LCG step, with seed 0 first replaced by 1 |
| NumberPicker.WrapThenMask | Lab-6/Q1.c:79 | the 32-bit wrap of the unsigned product before the 0x7FFFFFFF mask does not change the result |
| NumberPicker.SeedAfter | Lab-6/Q1.c:73-81 | the seed after n calls of my_rand is below 2^31 once n > 0 |
| NumberPicker.Draws | Lab-6/Q1.c:177-183 | generate_numbers gives four numbers 10 .. 99 |
| NumberPicker.DrawsAt | Lab-6/Q1.c:181 | number i comes from the (i + 1)-th seed, mod 90 plus 10 |
| NumberPicker.OnRelease | Lab-6/Q1.c:268-332 | a key release keeps the state invariant (two-digit numbers, sum equals the selections, cursor and window in range); only SELECT/BACK/CLEAR/RESET touch the sum; only UP/DOWN/RESET move the cursor |
| NumberPicker.SelectThenBack | Lab-6/Q1.c:289-324 | SELECT then BACK restores the state exactly |
| NumberPicker.SelectAddsMarked | Lab-6/Q1.c:289-303 | SELECT below four selections appends the marked number and adds it to the sum; at four it does nothing |
| NumberPicker.BackOnEmpty | Lab-6/Q1.c:316-324 | BACK with nothing selected changes nothing |
| NumberPicker.ClearKeepsView | Lab-6/Q1.c:326-331 | CLEAR drops the selections and the sum and keeps the rest |
| NumberPicker.ResetRedraws | Lab-6/Q1.c:305-314 | RESET clears the selections, puts the cursor and window at the top and draws four numbers seeded by the loop counter |
| NumberPicker.SumRange | Lab-6/Q1.c:296-300 | n two-digit selections sum to between 10n and 99n |
| NumberPicker.LedLevels | Lab-6/Q1.c:142-149 | four pin levels |
| NumberPicker.LedsCountSelections | Lab-6/Q1.c:142-149 | the first selected_count LEDs are lit (level 0) and the rest dark |
| NumberPicker.Screen | Lab-6/Q1.c:190-242 | four LCD lines of 16 characters |
| NumberPicker.CursorVisible | Lab-6/Q1.c:219-241 | the window shows the cursor row, and exactly that row carries the '>' marker |
| NumberPicker.SumLineReadsBack | Lab-6/Q1.c:197-216 | line 0 is "SUM = " plus the sum's 1 .. 3 digits, which parse back to the sum, then blanks |
| NumberPicker.Board.constructor | Lab-6/Q1.c:244-258 | the initial globals: numbers drawn from seed 0, nothing selected, cursor at the top; the first update_display (line 258) is the separate call NumberPicker.Board.UpdateDisplay that the caller makes next |
| NumberPicker.Board.MyRand | Lab-6/Q1.c:73-81 | my_rand stores and returns the next LCG seed and changes nothing else |
| NumberPicker.Board.GenerateNumbers | Lab-6/Q1.c:177-183 | the array holds Draws of the old seed, and the seed moves four steps |
| NumberPicker.Board.UpdateLeds | Lab-6/Q1.c:142-149 | the pins hold LedLevels(selected_count) |
| NumberPicker.Board.HandleKey | Lab-6/Q1.c:268-332 | the switch over the arrays yields OnRelease |
| NumberPicker.Board.Select | Lab-6/Q1.c:289-303 | the SELECT branch yields OnRelease for SELECT |
| NumberPicker.Board.Reset | Lab-6/Q1.c:305-314 | the RESET branch yields OnRelease for RESET |
| NumberPicker.Board.Back | Lab-6/Q1.c:316-324 | the BACK branch yields OnRelease for BACK |
| NumberPicker.Board.UpdateDisplay | Lab-6/Q1.c:190-242 | the method writes Screen of the state |
| NumberPicker.Board.Poll | Lab-6/Q1.c:258-345 | the key acts only on release (now 0, before not 0), then the display is redrawn; count and last_keyin advance |
| DecimalText.DigitChar | Lab-6/Q1.c:105 | a digit d becomes the character '0' + d |
| DecimalText.DigitsOfParses | Lab-6/Q1.c:104-107 | the digit string of a positive value parses back to it |
| DecimalText.DecimalParses | Lab-6/Q1.c:90-115 | simple_itoa's text for a non-negative value parses back to it |
| DecimalText.DecimalShape | Lab-6/Q1.c:90-115 | the text is only digits, at least one, with no leading zero unless the value is 0 |
| DecimalText.DigitsOfLength | Lab-6/Q1.c:104-107 | a value in 10^(k-1) .. 10^k - 1 has exactly k digits |
| DecimalText.Reverse | Lab-6/Q1.c:110-112 | reversing keeps the length and puts the character at position i at position length - 1 - i |
| DecimalText.SimpleItoa | Lab-6/Q1.c:90-115 | the two loops over temp[10] produce the decimal text of val |
| DecimalText.Fit | Lab-6/Q1.c:197-216 | exactly 16 characters: the text cut at 16 or padded with blanks |
| DecimalText.RenderLine | Lab-6/Q1.c:197-216 | the line buffer loops give Fit of head plus text |
| NumberRace.DigitOf | Lab-8/Q1_LanceVer.c:201 | rand() % 9 + 1 lies in 1 .. 9 |
| NumberRace.Picked | Lab-8/Q1_LanceVer.c:197-212 | step 1 keeps its accepted prefix, stays distinct and collects at most four; if fewer than four come out, every draw was a digit already taken |
| NumberRace.DistinctOnce | Lab-8/Q1_LanceVer.c:205 | a value occurs at most once among distinct digits |
| NumberRace.PermutationKeepsDistinct | Lab-8/Q1_LanceVer.c:215-231 | the sorted copy of distinct digits is distinct |
| NumberRace.ExchangeSort | Lab-8/Q1_LanceVer.c:220-231 | the sort leaves sorted[] in non-increasing order and a permutation of its input |
| NumberRace.SpeedOfRank | Lab-8/Q1_LanceVer.c:234-244 | the k-th largest distinct digit gets speed 8 - 2k |
| NumberRace.Nums | Lab-8/Q1_LanceVer.c:22-31 | the digits of the racers, in order |
| NumberRace.SpeedsFromSort | Lab-8/Q1_LanceVer.c:234-244 | step 4 against the sorted copy uses each of 8, 6, 4, 2 once, a larger digit running faster |
| NumberRace.SpeedsFollowDigits | Lab-8/Q1_LanceVer.c:234-244 | a larger digit gets a larger speed |
| NumberRace.SpeedUsed | Lab-8/Q1_LanceVer.c:234-244 | every speed 8 - 2k is given to some racer |
| NumberRace.FastestIsLargest | Lab-8/Q1_LanceVer.c:234-244 | the racer of speed 8 holds the largest digit |
| NumberRace.LargestIsFastest | Lab-8/Q1_LanceVer.c:234-244 | the largest digit runs at speed 8 |
| NumberRace.Move | Lab-8/Q1_LanceVer.c:304-322 | an arrived racer stays put; a running one advances, clamped at 120; it is marked reached exactly when it has arrived before or arrives now |
| NumberRace.Advanced | Lab-8/Q1_LanceVer.c:302-323 | every racer makes its own move |
| NumberRace.AdvancedKeepsField | Lab-8/Q1_LanceVer.c:302-323 | a step keeps the digits, the ranked speeds, columns in 0 .. 120 and "reached iff at 120" |
| NumberRace.FirstArrival | Lab-8/Q1_LanceVer.c:315-320 | the first arrival is the lowest index arriving in this step, and there is none exactly when no racer arrives |
| NumberRace.FirstArrivalExtend | Lab-8/Q1_LanceVer.c:302-323 | scanning one more racer keeps an earlier first arrival, or makes it this racer |
| NumberRace.LitOnly | Lab8/Q1.c:60-66 | LED_On(idx) drives exactly pin idx low and the others high |
| NumberRace.Reach | Lab-8/Q1_LanceVer.c:306-311 | the column after t steps lies in 0 .. 120, and is 120 exactly once s * t reaches it |
| NumberRace.ReachStep | Lab-8/Q1_LanceVer.c:304-314 | a racer at its step-t column moves to its step-(t+1) column and arrives exactly when crossing 120 |
| NumberRace.ArrivalStep | Lab8/Q1.c:179 | speed s arrives at step 120 / s (15, 20, 30 or 60) |
| NumberRace.RaceAdvances | Lab-8/Q1_LanceVer.c:300-323 | a pass moves the race to step t + 1; nobody arrives before step 15, and at step 15 the first arrival runs at speed 8 |
| NumberRace.DoneAt | Lab8/Q1.c:197-198 | all racers have arrived exactly from step 60 on |
| NumberRace.TimedStepFacts | Lab-8/Q1_LanceVer.c:300-334 | across one pass: led_shown is set exactly from step 15 on, the lit LED belongs to a speed-8 racer, and all_done holds exactly from step 60 |
| NumberRace.Race.constructor | Lab-8/Q1_LanceVer.c:277-286 | power-on: LEDs off, led_shown clear, the racers at column 0 with the drawn digits |
| NumberRace.Race.LedOn | Lab-8/Q1_LanceVer.c:119-125 | the pins hold LitOnly(idx) |
| NumberRace.Race.LedOffAll | Lab-8/Q1_LanceVer.c:131-134 | the pins are all high |
| NumberRace.Race.PickDigits | Lab-8/Q1_LanceVer.c:197-212 | the used[] loop gives Picked(draws) and resets each racer to column 0, not reached |
| NumberRace.Race.DrawUnused | Lab-8/Q1_LanceVer.c:200-202 | the do-while consumes draws up to the first unused digit, which is the next one Picked accepts |
| NumberRace.Race.AssignSpeeds | Lab-8/Q1_LanceVer.c:234-244 | each racer gets SpeedOf its digit against sorted[] |
| NumberRace.Race.GenerateNumbers | Lab-8/Q1_LanceVer.c:190-245 | the racers hold the picked digits at column 0 with ranked speeds |
| NumberRace.Race.AllDone | Lab-8/Q1_LanceVer.c:165-172 | true exactly when every racer has arrived |
| NumberRace.Race.RaceStep | Lab-8/Q1_LanceVer.c:302-323 | the racers advance; only the first arrival while led_shown is clear lights its LED |
| NumberRace.Race.MoveAll | Lab-8/Q1_LanceVer.c:302-323 | the for loop yields Advanced, and the LED of the first arrival |
| NumberRace.Race.MoveRacer | Lab-8/Q1_LanceVer.c:304-322 | the loop body moves racer i; it lights LED i when i arrives while led_shown is clear |
| NumberRace.Race.TimedStep | Lab-8/Q1_LanceVer.c:300-334 | a pass moves the race one step; all_done reports exactly whether step 60 is reached |
| NumberRace.Race.RunRace | Lab-8/Q1_LanceVer.c:300-334 | the race loop stops after 60 steps with every racer arrived, led_shown set and the LED of the largest digit lit |
| NumberRace.Race.PlayRound | Lab-8/Q1_LanceVer.c:281-334 | a round: the drawn digits race, every one arrives, and the LED of the largest digit is lit |
| BallGame.CollisionIsOverlap | Lab-8/Q2.c:173-183 | Check_Collision holds exactly when the two boxes share a pixel |
| BallGame.TouchingIsNoCollision | Lab-8/Q2.c:173-183 | boxes that only touch along an edge do not collide |
| BallGame.Masked | Lab-8/Q2.c:157 | the & 0xFFF reading lies in 0 .. 4095 |
| BallGame.SumMasked | Lab-8/Q2.c:145-158 | the sum of n readings is at most 4095 n |
| BallGame.PaddleValue | Lab-8/Q2.c:143-164 | the paddle column lies in 0 .. 111 |
| BallGame.SumOfSteady | Lab-8/Q2.c:149-158 | n equal readings v sum to n v |
| BallGame.SteadyKnob | Lab-8/Q2.c:160-163 | a knob held at v puts the paddle at v * 112 / 4096: 0 at the bottom rail and 111 at the top |
| BallGame.Heading | Lab-8/Q2.c:139-140 | the speed is +4 for an even draw and -4 for an odd one |
| BallGame.InitData | Lab-8/Q2.c:120-141 | Init_Game_Data: the ball at (60, 28), the paddle at column 56, the obstacle at (56, 8), the state kept, and the play invariant |
| BallGame.Walls | Lab-8/Q2.c:219-235 | the side walls clamp x to 0 or to 120 whenever the move reaches them and flip dx, the top wall clamps y to 0 and flips dy, otherwise the ball moves by its speed |
| BallGame.Play | Lab-8/Q2.c:215-257 | a PLAYING pass keeps the invariant and never returns to INIT; the paddle follows the knob and the obstacle stays |
| BallGame.BottomEndsGame | Lab-8/Q2.c:238-241 | reaching row 56 ends the game, even with the paddle under the ball |
| BallGame.AboveBottomContinues | Lab-8/Q2.c:238-241 | above row 56 the game goes on |
| BallGame.PaddleBounce | Lab-8/Q2.c:244-248 | a paddle hit puts the ball at row 48 and flips dy; the obstacle then cannot also be hit |
| BallGame.ObstacleBounce | Lab-8/Q2.c:250-253 | an obstacle hit only flips dy |
| BallGame.FreeFlight | Lab-8/Q2.c:244-253 | without a hit the ball keeps its course after the walls |
| BallGame.FollowKnob | Lab-8/Q2.c:208-212 | the waiting loop leaves the paddle where the last reading put it, or where Init_Game_Data put it if no reading was taken, always in 0 .. 111 |
| BallGame.Pass | Lab-8/Q2.c:201-267 | INIT always goes to PLAYING; PLAYING never returns to INIT; GAMEOVER goes back to INIT and changes nothing else |
| BallGame.InitStartsPlay | Lab-8/Q2.c:203-214 | a game from INIT starts with the ball at (60, 28) and the paddle following the knob |
| BallGame.Console.constructor | Lab-8/Q2.c:45-48 | the globals start zeroed, in STATE_INIT |
| BallGame.Console.InitGameData | Lab-8/Q2.c:120-141 | the globals hold InitData |
| BallGame.Console.UpdatePaddlePos | Lab-8/Q2.c:143-164 | the conversion loop sets the paddle column to PaddleValue and changes nothing else |
| BallGame.Console.PlayStep | Lab-8/Q2.c:215-257 | the PLAYING branch yields Play |
| BallGame.Console.Tick | Lab-8/Q2.c:201-267 | a pass of while (1) yields Pass |

## Left out

- Drawing is not modelled. This covers the LCD (`clear_LCD`, `draw_Snake_Block`, `printS`, `printC`, `draw_Bmp*`, `draw_all`, `Draw_Game`), the seven-segment driver (`ShowSevenSegment`, `CloseSevenSegment`) and the buzzer (`Beep`, `Buzz`). These are hardware output routines whose source is not part of this model. The seven-segment calls appear only as the list of `Show(position, digit)` values they would receive.
- Delays (`CLK_SysTickDelay`, `Delay_ms`), clock and pin setup (`SYS_Init`, `Init_Hardware`, `init_LED`, `init_leds`, `init_buzzer`, `OpenKeyPad`, `init_EINT1`) and the ADC interrupt handlers are left out. They are timing and hardware configuration.
- Interrupt preemption is not modelled. In Lab-9/Q2-final the timer interrupt runs between main-loop passes (`SnakeFinal.Console.TimerTick` is a separate method), so a scan that lands midway through `Update_Score_Display` is not modelled.
- `rand()`, `srand()` and their seeds (`srand(X_ADC + Y_ADC + score)`, `srand(1234)`, `srand(123)`) are not modelled. The C library generator is outside the program, so its results are a parameter sequence of draws.
- `SnakeGame.Reset`, `SnakeGame.Step`, `SnakeEngine.Engine.Eat`: these require draws that reach more than 100 distinct cells (`Covers`). The C loop `while (!valid)` uses `rand()` and relies on eventually hitting a free cell; the model needs such draws to show that the loop ends.
- `NumberRace.Race.constructor`, `NumberRace.Race.PickDigits`, `NumberRace.Race.DrawUnused`, `NumberRace.Race.GenerateNumbers`, `NumberRace.Race.PlayRound`: these require draws from which `Picked` collects four distinct digits (`|Picked(draws, [])| == 4`). `Picked` itself takes any draws and states the short case. A `rand()` stream that never yields four distinct digits would keep the C do-while spinning forever.
- ADC conversions (`X_ADC`, `Y_ADC`, `ADC->ADDR[7]`) are input parameters. So are the keypad (`ScanKey`), the reset pin `PC0` and the start interrupt (`start_flag`, EINT1). The key waits of Lab-8 are the history of readings taken while waiting (`waits`), or are left out where nothing happens during them (the race waits for the start button and a key).
- `NumberPicker.LcgNext`: the `g_seed` product is computed as an unbounded integer and then masked to 31 bits. `NumberPicker.WrapThenMask` shows that this equals the 32-bit wrap-around followed by the mask.
- `DecimalText.SimpleItoa` requires `val < 2^31`. That is the range of a C `int`, for which `temp[10]` is large enough.
- Score overflow is not modelled. The model keeps the score as an unbounded `nat`. In the C it is a signed 32-bit `int score` (`Lab-9/Q2-final.c:43`, `Lab-9/Q2.c:42`), and it keeps rising by 10 per fruit even at full length. It would overflow past 2^31 - 1, after about 2.1e8 fruits. The display shows the score mod 10000 (`ScoreDigits.SlotsShowScore`).
- `int8_t` snake coordinates and the `uint16_t current_len` are modelled as integers. Their values always fit (0 .. 63 and 16 .. 100).
- `BallGame.PaddleValue`: the `uint32_t adc_val` cannot overflow, since eight readings of at most 4095 are summed.
- The `count` loop counter of Lab-6 wraps at 2^32, as the `uint32_t` it is (`NumberPicker.Board.Poll`).
