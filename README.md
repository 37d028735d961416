# Calculator tool of the tool-use tutorial, in Dafny

The tool-use tutorial registers a calculator function as a tool for a pair of
conversable agents. An "assistant" agent proposes tool calls. A "user proxy"
agent runs them and stops the chat when a message carries the marker
`TERMINATE`. This project models the logic the tutorial script owns:

- `calculator.dfy` (module `Calculator`) holds both calculator variants. The
  positional `calculator(a, b, operator)` is `Calculate`. The structured
  `calculator(input)` is `CalculateInput`, which reads a `CalculatorInput`
  record. Both return a `Result<int>`. The error `InvalidOperator` stands for
  the `ValueError` raised on an unknown symbol. The error `DivisionByZero`
  stands for the `ZeroDivisionError` that `a / b` raises when `b == 0`. The
  operator is an arbitrary string, because Python does not enforce the
  `Literal["+", "-", "*", "/"]` annotation at run time. The symbol is tested
  first, so `%` with `b == 0` is an `InvalidOperator` error.
- Division `int(a / b)` truncates toward zero. `TruncDiv` computes it as
  sign × (|a| / |b|) on Dafny's Euclidean `/`. `TruncatedQuotient` states the
  same thing independently: the remainder `a - q*b` is smaller than `b` in
  magnitude and never has the opposite sign of `a`. Lemmas prove that this
  quotient is unique and that `TruncDiv` is it. They also prove where
  truncation differs from Dafny's Euclidean division: exactly for a
  negative dividend that `b` does not divide.
- `termination.dfy` (module `Termination`) holds the user proxy's
  `is_termination_msg` lambda as `IsTerminationMsg`. A message is a
  dictionary whose `"content"` entry may be missing or `None`. `Contains` scans
  for a substring and is proved equal to the existential `Occurs`.

Python integers are unbounded, so the model uses Dafny's `int` without any
wrap-around.

## Model

| member | source | states |
|---|---|---|
| Calculator.Calculate | website/docs/tutorial/tool-use.py:19-29 | succeeds exactly for the four symbols (except `/` with `b == 0`); `+`, `-`, `*` give the exact sum, difference and product; `/` gives the quotient truncated toward zero; an unknown symbol gives `InvalidOperator` whatever `b` is; `/` by zero gives `DivisionByZero` |
| Calculator.CalculateInput | website/docs/tutorial/tool-use.py:70-86 | the structured variant has the same outcome, value or error, as the positional one on the record's fields |
| Calculator.TruncDiv | website/docs/tutorial/tool-use.py:27 | for `b != 0` the result satisfies the truncated-quotient relation |
| Calculator.TruncDivRemainder | website/docs/tutorial/tool-use.py:27 | the signed quotient ±(\|a\| / \|b\|) leaves a remainder with the sign of `a` and smaller than `b` in magnitude |
| Calculator.SignedRemainder | website/docs/tutorial/tool-use.py:27 | from \|a\| = m·\|b\| + k, the signed quotient ±m (+m when the signs of `a` and `b` agree) is the truncated quotient of `a` by `b`, and the remainder it leaves is exactly +k or −k (−k when `a` is negative) |
| Calculator.TruncatedQuotientUnique | website/docs/tutorial/tool-use.py:27 | at most one integer is a truncated quotient of `a` by `b` |
| Calculator.TruncDivCharacterized | website/docs/tutorial/tool-use.py:27 | `q` is a truncated quotient of `a` by `b` if and only if `q == TruncDiv(a, b)` |
| Calculator.TruncDivVersusEuclidean | website/docs/tutorial/tool-use.py:27 | truncation equals Euclidean division if and only if `a >= 0` or `b` divides `a` |
| Calculator.TruncDivNegatedDividend | website/docs/tutorial/tool-use.py:27 | negating the dividend negates the truncated quotient |
| Calculator.TruncDivNegatedDivisor | website/docs/tutorial/tool-use.py:27 | negating the divisor negates the truncated quotient |
| Calculator.DivisionIsTruncatedQuotient | website/docs/tutorial/tool-use.py:26-27 | for `b != 0`, `calculator(a, b, "/")` returns `q` if and only if `q` is the truncated quotient |
| Calculator.WorkedExamples | website/docs/tutorial/tool-use.py:19-29 | (3,4) gives 7, −1 and 12 under `+`, `-`, `*`; 7/2 gives 3; −7/2 gives −3, where Euclidean division gives −4; `%` is an error even with `b == 0`; `/` by 0 is an error |
| Calculator.FirstTutorialQuestion | website/docs/tutorial/tool-use.py:65-67 | a chain of calls computes (44232 + 13312 / (232 − 32)) × 5 = 221490, with 13312 / 200 truncated to 66 |
| Calculator.SecondTutorialQuestion | website/docs/tutorial/tool-use.py:96-98 | a chain of structured calls computes (1423 − 123) / 3 + (32 + 23) × 5 = 708, with 1300 / 3 truncated to 433 |
| Termination.Contains | website/docs/tutorial/tool-use.py:46 | the scan is true if and only if the substring occurs at some position |
| Termination.OccursShift | website/docs/tutorial/tool-use.py:46 | with no match at position 0, a match in `s` is a match in its tail |
| Termination.IsTerminationMsg | website/docs/tutorial/tool-use.py:46 | true if and only if the message has a `"content"` key whose entry is not `None` and contains `TERMINATE`; false whenever the key is missing |
| Termination.MarkerAnywhereTerminates | website/docs/tutorial/tool-use.py:46 | any content with `TERMINATE` somewhere in it ends the chat |
| Termination.TerminationExamples | website/docs/tutorial/tool-use.py:46 | no content, `None` content and `""` do not end the chat; `"TERMINATE"` does; `"terminate"` does not (case-sensitive) |

## Left out

- Environment loading (`load_dotenv`) and reading the model configuration (`config_list_from_json`, lines 10 and 12): file and environment I/O whose format the agent library defines.
- `agentops.init` (line 14): telemetry sent to an external service.
- Building the two `ConversableAgent`s and registering the tool (`register_for_llm`, `register_for_execution`, `register_function`, `assistant.llm_config["tools"]`; lines 33-63 and 89-94): these are wrappers over the external agent library, and its behaviour and schema generation are not visible here.
- `initiate_chat` (lines 65 and 96): a network- and model-driven message loop that the library owns.
- Pydantic validation and schema derivation for `CalculatorInput` (lines 70-73): library behaviour. The record is a plain datatype, and its `operator` field is any string.
- Calculator.Calculate: `int(a / b)` goes through a float. The model is exact truncation of the rational quotient. The two agree while the operands stay in the range where a float holds integers exactly (up to about 2^53 in magnitude). Beyond that, Python's rounded float quotient can differ from the exact truncation (for example a = 10^20 − 1, b = 10^20). When the quotient itself exceeds the float range (about 1.8·10^308), Python raises `OverflowError`. Neither is modelled.
- Calculator.CalculateInput: the same float restriction applies to its division.
- Calculator.Calculate: the operands are assumed to be integers. Python does not enforce the `int` annotations either, and the agent library passes the tool-call arguments through unchecked, so a float operand would take Python's float arithmetic. That path is not modelled.
- Termination.IsTerminationMsg: the content is modelled as a string or absent. A non-string content (for example a list of parts, where Python's `in` tests membership rather than substring) is not modelled.
- The `Annotated` descriptions and the tool names and descriptions passed at registration have no behaviour of their own to model.
