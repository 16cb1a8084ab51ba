# Coffe_Grinder order composer and catalog editor, modelled in Dafny

Coffe_Grinder is a WPF desktop application for a coffee shop. Its data lives in a SQL Server database reached through an Entity Framework context. This project models two parts of it.

- **The order page** (`CreateOrderPage`):
  - It loads one row (an `OrderItemViewModel`) for every coffee with stock. Each row starts at quantity 0, with a ceiling equal to the stock at load time.
  - The +, - and remove buttons move a row's quantity within `[0, ceiling]`. Clear resets every quantity.
  - After every change, the selection (rows with a positive quantity, in row order) and the order total are derived again.
  - Submit checks the customer name, then the selection. It then writes one order header and one order detail per selected row, and takes each row's quantity off the matching coffee's stock.
- **The catalog editor** (`inventory`):
  - `ValidateForm` applies four checks in order, and the first failing check decides the result.
  - The input guards of "find by id" and "add coffee type".
  - What `add`, `update` and `delete` write to the tables, including the identity reseed after a delete.

The model is organised as follows:

- `Database.Store` is a class holding the four tables as sequences, plus the SQL identity counters that issue primary keys.
- `OrderComposer.Composer` is a class holding the page's rows, the derived selection and total, and the customer text boxes. Its methods update these fields in place, as the click handlers do.
- `InventoryEditor.InventoryPage` holds the editor's form and writes through its `Store`.
- The logic behind the buttons is written as functions over sequences (`OrderLines`, `OrderCommit`). The methods are proved against these functions, and the lemmas about the functions carry the properties.
- `DotNetText` models the .NET text routines the pages rely on:
  - `string.IsNullOrEmpty` and `string.IsNullOrWhiteSpace`.
  - `int.TryParse` and `int.ToString`.
  - `decimal.TryParse` for the invariant culture, and `decimal.ToString`.

  Prices are `real`, because C# `decimal` is an exact decimal type.

Behaviour of the code worth noting:

- The order page's customer name check rejects a name made only of white space (`IsNullOrWhiteSpace`). The editor's checks reject only the empty string (`IsNullOrEmpty`).
- After a successful submit, the page is reset only if the user confirms the "Clear your current order?" prompt.
- After a delete, the page reports that the ID sequence was reorganised. What it does is reseed the identity counter to the largest remaining key. No row is renumbered.
- A commit that fails after the first `SaveChanges` keeps the order header. Nothing rolls it back.

## Model

| member | source | states |
|---|---|---|
| Seqs.Filter | Coffe_Grinder/Coffe_Grinder/CreateOrderPage.xaml.cs:55-57 | LINQ `Where(...).ToList()`: every element kept satisfies the predicate, every satisfying element is kept, and the result is never longer than the input |
| Seqs.FilterAtPositions | Coffe_Grinder/Coffe_Grinder/CreateOrderPage.xaml.cs:55-57 | the filtered list is the input's elements at strictly increasing positions, so the original order is kept |
| Seqs.PositionsComplete | Coffe_Grinder/Coffe_Grinder/CreateOrderPage.xaml.cs:55-57 | every position whose element satisfies the predicate is among the kept positions |
| DotNetText.ParseInt32 | Coffe_Grinder/Coffe_Grinder/inventory.xaml.cs:57 | `int.TryParse` succeeds only on text holding a digit, and only with a value in the Int32 range |
| DotNetText.FormatIntRoundTrip | Coffe_Grinder/Coffe_Grinder/inventory.xaml.cs:75-79 | what `int.ToString` prints (the Id and Amount boxes), `int.TryParse` reads back as the same number |
| DotNetText.UnsignedDecimal | Coffe_Grinder/Coffe_Grinder/inventory.xaml.cs:286 | an unsigned `digits[.digits]` numeral is accepted only when it holds a digit, and its value is never negative |
| DotNetText.DecimalValue | Coffe_Grinder/Coffe_Grinder/inventory.xaml.cs:286 | a numeral's value is at least its integer part, which is non-negative |
| DotNetText.ParsePointDecimal | Coffe_Grinder/Coffe_Grinder/inventory.xaml.cs:286 | `decimal.TryParse` reads `w.f` as w + f / 10^len(f) |
| DotNetText.ParseWholeDecimal | Coffe_Grinder/Coffe_Grinder/inventory.xaml.cs:286 | `decimal.TryParse` reads a plain digit run as its integer value |
| DotNetText.FormatFixedRoundTrip | Coffe_Grinder/Coffe_Grinder/inventory.xaml.cs:80 | what `decimal.ToString` prints for a non-negative price with a given scale, `decimal.TryParse` reads back as the same value |
| Database.FindItem | Coffe_Grinder/Coffe_Grinder/CreateOrderPage.xaml.cs:176 | `CoffeeInventories.Find(id)`: the first row with that key, or None exactly when no row has it |
| Database.FindUniqueItem | Coffe_Grinder/Coffe_Grinder/CreateOrderPage.xaml.cs:176 | with unique primary keys, looking up a row's key finds that row |
| Database.SameKeysStayValid | Coffe_Grinder/Coffe_Grinder/CreateOrderPage.xaml.cs:179 | rewriting rows without touching their keys keeps the keys unique and issued by the identity counter |
| Database.Store.InsertType | Coffe_Grinder/Coffe_Grinder/inventory.xaml.cs:36-37 | the new type row gets the next identity value, not held by any existing type, and is appended; every other table and counter is unchanged |
| Database.Store.InsertItem | Coffe_Grinder/Coffe_Grinder/inventory.xaml.cs:151-152 | the new coffee row gets the next identity value, not held by any row, and is appended with the given fields; the rest is unchanged |
| Database.Store.InsertOrder | Coffe_Grinder/Coffe_Grinder/CreateOrderPage.xaml.cs:160-161 | the order header gets the next OrderID, not held by any order, and is appended; the rest is unchanged |
| OrderLines.LoadLines | Coffe_Grinder/Coffe_Grinder/CreateOrderPage.xaml.cs:27-40 | every loaded row starts at quantity 0 with a ceiling of at least 1, so the rows are within their ceilings |
| OrderLines.LoadKeepsInStockRows | Coffe_Grinder/Coffe_Grinder/CreateOrderPage.xaml.cs:27-40 | load keeps exactly the rows with stock > 0, in store order; each gets quantity 0, ceiling = stock and unit price = price, a null price becoming 0; unique keys give unique rows |
| OrderLines.SelectionKeepsPositiveLines | Coffe_Grinder/Coffe_Grinder/CreateOrderPage.xaml.cs:55-57 | the selection is exactly the rows with quantity > 0, in row order; it keeps unique ids and quantities within ceilings |
| OrderLines.TotalOfSelection | Coffe_Grinder/Coffe_Grinder/CreateOrderPage.xaml.cs:65 | the total over the selection equals Σ quantity × price over all rows, because rows at 0 add nothing |
| OrderLines.TotalNonnegative | Coffe_Grinder/Coffe_Grinder/CreateOrderPage.xaml.cs:218 | with non-negative prices and quantities within ceilings, the total is never negative |
| OrderLines.FindLine | Coffe_Grinder/Coffe_Grinder/CreateOrderPage.xaml.cs:73 | `FirstOrDefault(c => c.CoffeeID == id)`: the first row with that id, or None exactly when there is none |
| OrderLines.FindLineSameIds | Coffe_Grinder/Coffe_Grinder/CreateOrderPage.xaml.cs:73 | rows that agree on their ids give the same lookup result, so quantity changes never redirect a button |
| OrderLines.FindLineIsFirst | Coffe_Grinder/Coffe_Grinder/CreateOrderPage.xaml.cs:91 | the first row carrying an id is the one the lookup returns |
| OrderLines.Increased | Coffe_Grinder/Coffe_Grinder/CreateOrderPage.xaml.cs:73-83 | + raises only the found row, by 1 and only below its ceiling; at the ceiling or for an unknown id nothing changes; ceilings are respected |
| OrderLines.Decreased | Coffe_Grinder/Coffe_Grinder/CreateOrderPage.xaml.cs:91-96 | - lowers only the found row, by 1 and only above 0; at 0 or for an unknown id nothing changes; ceilings are respected |
| OrderLines.Removed | Coffe_Grinder/Coffe_Grinder/CreateOrderPage.xaml.cs:104-109 | remove sets only the found row's quantity to 0; an unknown id changes nothing |
| OrderLines.DecreaseUndoesIncrease | Coffe_Grinder/Coffe_Grinder/CreateOrderPage.xaml.cs:73-96 | a - right after a + that was taken restores the rows exactly |
| OrderLines.RemoveIdempotent | Coffe_Grinder/Coffe_Grinder/CreateOrderPage.xaml.cs:104-109 | removing twice has the same effect as removing once |
| OrderLines.ClearedSelectsNothing | Coffe_Grinder/Coffe_Grinder/CreateOrderPage.xaml.cs:120-124 | clear keeps the rows and their ceilings, sets every quantity to 0, and leaves an empty selection with total 0 |
| OrderCommit.OrderTotalMatchesDetails | Coffe_Grinder/Coffe_Grinder/CreateOrderPage.xaml.cs:157-172 | the header's TotalPrice equals Σ Quantity × UnitPrice over the detail rows written with it |
| OrderCommit.DecrementOne | Coffe_Grinder/Coffe_Grinder/CreateOrderPage.xaml.cs:176-180 | one line's stock update changes the stock column only, and keeps the table's length |
| OrderCommit.Decremented | Coffe_Grinder/Coffe_Grinder/CreateOrderPage.xaml.cs:164-181 | the commit loop's stock updates change the stock column only, and keep the table's length |
| OrderCommit.DecrementedStock | Coffe_Grinder/Coffe_Grinder/CreateOrderPage.xaml.cs:164-181 | each row's stock ends lowered by the total quantity ordered of it (null stays null, no floor); every other column is unchanged |
| OrderCommit.QtyOfUnique | Coffe_Grinder/Coffe_Grinder/CreateOrderPage.xaml.cs:164-170 | with unique ids in the selection, the quantity ordered of a coffee is that of its line, or 0 when it has none |
| OrderCommit.CommitStockEffect | Coffe_Grinder/Coffe_Grinder/CreateOrderPage.xaml.cs:176-180 | a row with a selected line loses exactly that line's quantity; a row without one is unchanged |
| SessionCoherence.LoadIsCoherent | Coffe_Grinder/Coffe_Grinder/CreateOrderPage.xaml.cs:27-40 | right after a load, every ceiling is backed by a stock of at least that size in the store |
| SessionCoherence.SameCeilingsStayCoherent | Coffe_Grinder/Coffe_Grinder/CreateOrderPage.xaml.cs:74-76 | quantity changes that keep ids and ceilings keep the ceilings backed by the store |
| SessionCoherence.CoherentCommitKeepsStock | Coffe_Grinder/Coffe_Grinder/CreateOrderPage.xaml.cs:164-181 | when every ceiling is backed by the stock, committing the selection leaves no stock negative |
| SessionCoherence.ResubmitOverdrawsStock | Coffe_Grinder/Coffe_Grinder/CreateOrderPage.xaml.cs:164-189 | as written: after an order drains a coffee, the cleared rows keep their old ceiling, so a second order in the same session takes the stock to -5 |
| SessionCoherence.FirstOrderDrainsStock | Coffe_Grinder/Coffe_Grinder/CreateOrderPage.xaml.cs:73-83 | the first order of that example: five presses fill the row, and the commit takes stock 5 to 0 |
| SessionCoherence.SecondOrderOverdraws | Coffe_Grinder/Coffe_Grinder/CreateOrderPage.xaml.cs:120-124 | the second order of that example: clearing keeps the ceiling of 5 against a stock of 0, and the next commit gives -5 |
| SessionCoherence.LoadOneRow | Coffe_Grinder/Coffe_Grinder/CreateOrderPage.xaml.cs:27-40 | a single in-stock row loads as its one view model |
| SessionCoherence.CommitOneLine | Coffe_Grinder/Coffe_Grinder/CreateOrderPage.xaml.cs:176-180 | committing one line against the row it names takes its quantity off that row |
| OrderComposer.Composer.constructor | Coffe_Grinder/Coffe_Grinder/CreateOrderPage.xaml.cs:17-44 | opening the page loads the rows from the store, with an empty selection, total 0 and empty customer fields |
| OrderComposer.Composer.UpdateOrderItems | Coffe_Grinder/Coffe_Grinder/CreateOrderPage.xaml.cs:53-67 | after the update, the selection is the filtered rows and the total is their sum |
| OrderComposer.Composer.Increase | Coffe_Grinder/Coffe_Grinder/CreateOrderPage.xaml.cs:69-85 | the rows become `Increased`, and selection and total follow; reports the stock-limit warning with the ceiling when the row is full, and nothing for an unknown id |
| OrderComposer.Composer.Decrease | Coffe_Grinder/Coffe_Grinder/CreateOrderPage.xaml.cs:87-98 | the rows become `Decreased`; selection and total follow |
| OrderComposer.Composer.Remove | Coffe_Grinder/Coffe_Grinder/CreateOrderPage.xaml.cs:100-111 | the rows become `Removed`; selection and total follow |
| OrderComposer.Composer.ClearOrder | Coffe_Grinder/Coffe_Grinder/CreateOrderPage.xaml.cs:113-129 | declined: nothing changes; confirmed: every quantity is 0, selection empty, total 0, name, phone and notes empty |
| OrderComposer.Composer.Submit | Coffe_Grinder/Coffe_Grinder/CreateOrderPage.xaml.cs:131-196 | a blank or white-space name, then an empty selection, stops before any write. Otherwise the header is appended as a pending order under the next OrderID, with the customer fields and the total. One detail per selected row follows, in order, then the stock updates, and the OrderID counter ends at the new id. Nothing else in the store changes. The page is cleared only if the user confirms |
| OrderComposer.Composer.SubmitAndReload | Coffe_Grinder/Coffe_Grinder/CreateOrderPage.xaml.cs:131-189 | corrected: the same guards and the same writes to the store as `Submit`, with the same OrderID and total. Then the rows are reloaded from the store: they are always coherent with it, and non-negative stock stays non-negative. The customer fields are emptied only if the user confirms |
| OrderComposer.Composer.PlaceAndReload | Coffe_Grinder/Coffe_Grinder/CreateOrderPage.xaml.cs:150-183 | the success path of the corrected submit: the header and details are written, stock is decremented, and the rows are reloaded and coherent with the store |
| OrderComposer.Composer.Reload | Coffe_Grinder/Coffe_Grinder/CreateOrderPage.xaml.cs:23-44 | `LoadAvailableCoffees` on an open page: the rows become `LoadLines` of the store, with an empty selection and total 0, and they are coherent with the store |
| OrderComposer.PlaceOrder | Coffe_Grinder/Coffe_Grinder/CreateOrderPage.xaml.cs:150-183 | the two saves: the header gets the next OrderID, its details are appended and the stock is decremented; types and the other counters are unchanged |
| OrderComposer.CommitFromCoherentRows | Coffe_Grinder/Coffe_Grinder/CreateOrderPage.xaml.cs:164-181 | whenever the rows are coherent with non-negative stock, committing their selection leaves no stock negative |
| OrderComposer.NothingSelectedAtZero | Coffe_Grinder/Coffe_Grinder/CreateOrderPage.xaml.cs:38 | rows all at quantity 0 select nothing and total 0 |
| OrderComposer.WriteLines | Coffe_Grinder/Coffe_Grinder/CreateOrderPage.xaml.cs:164-181 | the commit loop appends `DetailsFor` the selection and applies `Decremented`; headers, types and counters are untouched |
| OrderComposer.CommitStep | Coffe_Grinder/Coffe_Grinder/CreateOrderPage.xaml.cs:164-180 | one more loop turn adds one detail and one decrement |
| OrderComposer.TakeStock | Coffe_Grinder/Coffe_Grinder/CreateOrderPage.xaml.cs:176-180 | one line's stock update is `DecrementOne` and keeps the key constraints |
| OrderSessions.RunKeepsCeilings | Coffe_Grinder/Coffe_Grinder/CreateOrderPage.xaml.cs:74-107 | after any sequence of +, - and remove presses, every quantity lies in [0, ceiling], and only quantities have changed |
| OrderSessions.RunKeepsCoherence | Coffe_Grinder/Coffe_Grinder/CreateOrderPage.xaml.cs:74-107 | ceilings backed by the stock stay backed after any sequence of presses |
| OrderSessions.IncreaseScenario | Coffe_Grinder/Coffe_Grinder/CreateOrderPage.xaml.cs:73-83 | stock 5 at 10.00: three + give 3 and total 30.00; two more reach 5 and total 50.00, and a sixth changes nothing |
| OrderSessions.UpToThree | Coffe_Grinder/Coffe_Grinder/CreateOrderPage.xaml.cs:65 | three + on a fresh row give quantity 3 and total 30.00 |
| OrderSessions.ClampAtFive | Coffe_Grinder/Coffe_Grinder/CreateOrderPage.xaml.cs:79-83 | from 3, two + reach the ceiling of 5 and a third is refused |
| OrderSessions.PlusOnOneLine | Coffe_Grinder/Coffe_Grinder/CreateOrderPage.xaml.cs:74-76 | + on a single row adds one unless the row is at its ceiling |
| OrderSessions.SelectedTotal | Coffe_Grinder/Coffe_Grinder/CreateOrderPage.xaml.cs:218 | one selected row: the selection is that row, and the total is its subtotal |
| OrderSessions.SubmitScenario | Coffe_Grinder/Coffe_Grinder/CreateOrderPage.xaml.cs:150-181 | submitting 3 at 10.00 writes the detail (3, 10.00) and a total of 30.00, and takes stock 5 to 2 |
| InventoryEditor.ValidateForm | Coffe_Grinder/Coffe_Grinder/inventory.xaml.cs:266-293 | the result is FormOk exactly when all four checks pass; each failure is reported exactly when the checks before it pass and its own fails |
| InventoryEditor.FormItem | Coffe_Grinder/Coffe_Grinder/inventory.xaml.cs:142-149 | a row is built exactly for a valid form: non-empty name, the picked type, a positive Int32 stock, a positive price and the description |
| InventoryEditor.FindById | Coffe_Grinder/Coffe_Grinder/inventory.xaml.cs:49-73 | empty input, then non-numeric input, is refused before any lookup; a numeric id yields not-found exactly when no row has it, or else a row with that key |
| InventoryEditor.ReseedValue | Coffe_Grinder/Coffe_Grinder/inventory.xaml.cs:238 | an upper bound of every remaining key, equal to one of them, or 0 when no row is left |
| InventoryEditor.ReseedIsLeastCover | Coffe_Grinder/Coffe_Grinder/inventory.xaml.cs:238 | the reseed value is the smallest counter that covers every remaining key |
| InventoryEditor.ReseedNextKeyFresh | Coffe_Grinder/Coffe_Grinder/inventory.xaml.cs:237-239 | after the reseed, the next key the identity column issues is held by no row |
| InventoryEditor.InventoryPage.constructor | Coffe_Grinder/Coffe_Grinder/inventory.xaml.cs:11-19 | the page starts on its store with an empty form |
| InventoryEditor.InventoryPage.ClearForm | Coffe_Grinder/Coffe_Grinder/inventory.xaml.cs:295-303 | every box of the form is emptied and no type is picked |
| InventoryEditor.InventoryPage.AddNewCoffeeType | Coffe_Grinder/Coffe_Grinder/inventory.xaml.cs:21-41 | an empty name is refused without touching anything; otherwise exactly one type row is appended under the next key, the type counter ends at that key, nothing else changes and the box is cleared |
| InventoryEditor.InventoryPage.Add | Coffe_Grinder/Coffe_Grinder/inventory.xaml.cs:134-157 | the form is refused exactly when it is invalid, with its first failing check and nothing written; a valid one is always saved: it appends exactly its `FormItem` under the next key, the coffee counter ends at that key, nothing else changes and the form is cleared |
| InventoryEditor.InventoryPage.Update | Coffe_Grinder/Coffe_Grinder/inventory.xaml.cs:164-195 | an empty Id, then an invalid form, then a non-numeric Id, then an absent key leave everything unchanged, a refusal naming the first failing check and a not-found naming the parsed Id; the update is saved exactly when the Id is given, the form is valid and the parsed key is present, and then only that row is overwritten with the form's values, keeping its key |
| InventoryEditor.InventoryPage.Delete | Coffe_Grinder/Coffe_Grinder/inventory.xaml.cs:202-244 | an empty Id, a declined prompt, a non-numeric Id or an absent key leave everything unchanged, a not-found naming the parsed Id; the delete is saved exactly when the Id is given, the prompt is confirmed and the parsed key is present, and then that coffee's details and its row are removed, and the counter is reseeded |
| InventoryEditor.OverwriteRow | Coffe_Grinder/Coffe_Grinder/inventory.xaml.cs:185-191 | the row at the position takes the new values and keeps its key; the key constraints hold |
| InventoryEditor.RemoveCoffee | Coffe_Grinder/Coffe_Grinder/inventory.xaml.cs:219-239 | details without that coffee, the row removed, and the counter equal to the reseed value; the key constraints hold |
| InventoryEditor.RemoveAtKeys | Coffe_Grinder/Coffe_Grinder/inventory.xaml.cs:234-238 | removing a row drops exactly that key and keeps the order of the rest; the reseeded counter covers every key left |
| InventoryEditor.DeleteDropsExactlyReferences | Coffe_Grinder/Coffe_Grinder/inventory.xaml.cs:220-224 | the surviving details are exactly those of other coffees, in their original order |
| InventoryEditor.SelectedIdFindsRow | Coffe_Grinder/Coffe_Grinder/inventory.xaml.cs:99 | the Id text a selected row puts in the form finds that row again |
| InventoryEditor.PrintedFormValidates | Coffe_Grinder/Coffe_Grinder/inventory.xaml.cs:280-290 | with printed numbers in the Amount and Price boxes, the form passes exactly when there is a name, a type, a positive quantity and a positive price; the row then carries those values |
| OrderLines.Line.Subtotal | Coffe_Grinder/Coffe_Grinder/CreateOrderPage.xaml.cs:218 | definition (Quantity × UnitPrice); its properties are in `OrderLines.TotalNonnegative` and `OrderSessions.SelectedTotal` |
| OrderLines.InStock | Coffe_Grinder/Coffe_Grinder/CreateOrderPage.xaml.cs:29 | definition (`QuantityInStock > 0`, a null stock failing it); its properties are in `OrderLines.LoadKeepsInStockRows` |
| OrderLines.LineOf | Coffe_Grinder/Coffe_Grinder/CreateOrderPage.xaml.cs:32-40 | definition of one loaded view model; its properties are in `OrderLines.LoadKeepsInStockRows` |
| OrderLines.Selection | Coffe_Grinder/Coffe_Grinder/CreateOrderPage.xaml.cs:55-57 | definition; its properties are in `OrderLines.SelectionKeepsPositiveLines` |
| OrderLines.Total | Coffe_Grinder/Coffe_Grinder/CreateOrderPage.xaml.cs:65 | definition (Σ Subtotal); its properties are in `OrderLines.TotalOfSelection`, `OrderLines.TotalNonnegative` and `OrderCommit.OrderTotalMatchesDetails` |
| OrderLines.Cleared | Coffe_Grinder/Coffe_Grinder/CreateOrderPage.xaml.cs:120-123 | definition; its properties are in `OrderLines.ClearedSelectsNothing` |
| OrderCommit.DetailOf | Coffe_Grinder/Coffe_Grinder/CreateOrderPage.xaml.cs:166-172 | definition of one detail row; its properties are in `OrderCommit.OrderTotalMatchesDetails` |
| OrderCommit.DetailsFor | Coffe_Grinder/Coffe_Grinder/CreateOrderPage.xaml.cs:164-173 | definition; its properties are in `OrderCommit.OrderTotalMatchesDetails` and `OrderComposer.WriteLines` |
| OrderCommit.DetailsTotal | Coffe_Grinder/Coffe_Grinder/CreateOrderPage.xaml.cs:157 | definition (Σ Quantity × UnitPrice over details); its properties are in `OrderCommit.OrderTotalMatchesDetails` |
| OrderCommit.Minus | Coffe_Grinder/Coffe_Grinder/CreateOrderPage.xaml.cs:179 | definition (a null stock stays null, no floor); its properties are in `OrderCommit.DecrementedStock` |
| OrderCommit.QtyOf | Coffe_Grinder/Coffe_Grinder/CreateOrderPage.xaml.cs:164-180 | definition; its properties are in `OrderCommit.QtyOfUnique` and `OrderCommit.DecrementedStock` |
| DotNetText.IsNullOrWhiteSpace | Coffe_Grinder/Coffe_Grinder/CreateOrderPage.xaml.cs:133 | definition; its properties are in the ensures of `OrderComposer.Composer.Submit` |
| DotNetText.IsNullOrEmpty | Coffe_Grinder/Coffe_Grinder/inventory.xaml.cs:268 | definition; its properties are in the ensures of `InventoryEditor.ValidateForm`, `InventoryEditor.FindById` and the editor's buttons |
| DotNetText.ParseDecimal | Coffe_Grinder/Coffe_Grinder/inventory.xaml.cs:286 | definition; its properties are in `DotNetText.ParsePointDecimal`, `DotNetText.ParseWholeDecimal` and `DotNetText.FormatFixedRoundTrip` |
| DotNetText.FormatInt | Coffe_Grinder/Coffe_Grinder/inventory.xaml.cs:75 | definition; its properties are in `DotNetText.FormatIntRoundTrip` |
| DotNetText.FormatFixed | Coffe_Grinder/Coffe_Grinder/inventory.xaml.cs:80 | definition; its properties are in `DotNetText.FormatFixedRoundTrip` |
| InventoryEditor.QuantityOk | Coffe_Grinder/Coffe_Grinder/inventory.xaml.cs:280 | definition; its properties are in `InventoryEditor.ValidateForm` and `InventoryEditor.PrintedFormValidates` |
| InventoryEditor.PriceOk | Coffe_Grinder/Coffe_Grinder/inventory.xaml.cs:286 | definition; its properties are in `InventoryEditor.ValidateForm` and `InventoryEditor.PrintedFormValidates` |
| InventoryEditor.DetailsWithout | Coffe_Grinder/Coffe_Grinder/inventory.xaml.cs:220-224 | definition; its properties are in `InventoryEditor.DeleteDropsExactlyReferences` |
| InventoryEditor.RemoveAt | Coffe_Grinder/Coffe_Grinder/inventory.xaml.cs:234 | definition; its properties are in `InventoryEditor.RemoveAtKeys` |
| Database.Store.constructor | Coffe_Grinder/Coffe_Grinder/inventory.xaml.cs:11 | a fresh entity context over an empty database: every table empty and every identity counter at 0 |

## Left out

- The WPF surface is not modelled. This covers message boxes and their texts, `InitializeComponent` and grid `ItemsSource` binding. It also covers `INotifyPropertyChanged`, `ScrollIntoView` and the `SelectionChanged` handler that fills the editor form.
- Filling the form from a FindById hit is left out. The guards and the lookup result are modelled. Only the Id text is covered, through `SelectedIdFindsRow`.
- The two confirmation prompts (clear order, delete) are boolean inputs.
- `OrderTotal.Text` currency formatting and `OrderDate = DateTime.Now` are not modelled. The first depends on the locale, the second on the clock.
- Entity Framework exceptions and the `catch` blocks are left out. This includes load errors, a failure in either `SaveChanges` of submit, and an `int.Parse` failure on the Id box. The last one is modelled as the deterministic `BadId` outcome.
- A failed second `SaveChanges` after the order header was stored is not modelled. In the source it leaves a header without details.
- After a not-found delete, the source leaves the staged removal of that id's details in the long-lived context. A later `SaveChanges` would persist it. The model treats the staged removal as discarded.
- `DBCC CHECKIDENT` is modelled only by its effect on the identity counter, which becomes the reseed value. SQL Server's special case for a table that never held rows is not modelled.
- Foreign-key constraints between the tables are not modelled. Neither is uniqueness of type names, which the source does not enforce either.
- Concurrent stock changes by other sessions between load and submit are not modelled. The application assumes a single user.
- `LoadCoffeeTypes`, `LoadCoffeeInventory` and `refresh` are not modelled. They are display queries whose only effect is the grid's contents.
- The order page's load query has no `OrderBy`. The model takes the rows in the table's key order, which is also the editor grid's order.
- Rows are values in a sequence. The model does not capture that `selectedItems` shares its view-model objects with `availableCoffees`. Every change re-derives the selection, so the shared objects are not observable.
- OrderCommit.Minus: integers are unbounded. The C# `-=` on the `int?` stock column wraps at 32 bits in an unchecked context. This matters only for a stock near -2^31.
- OrderLines.Total: C# `decimal` has 28–29 significant digits and throws on overflow. The model sums exact reals.
- DotNetText.ParseDecimal models only part of `decimal.TryParse`:
  - Group separators are not modelled: .NET accepts "1,000.50", and the model rejects it.
  - A trailing sign, such as "5-", is not modelled. .NET accepts it.
  - The current culture's decimal separator and sign symbols are not modelled. The model uses the invariant culture's '.', '+' and '-'.
  - Range and precision are not modelled. The model accepts any number of digits, where .NET rejects values beyond `decimal`'s range and rounds past its precision.
- DotNetText.ParseInt32: trailing NUL characters, which .NET tolerates, and culture-specific sign symbols are not modelled.

## Findings

| source | as written | input that shows it | evidently intended | confidence | as-written member | corrected member |
|---|---|---|---|---|---|---|
| Coffe_Grinder/Coffe_Grinder/CreateOrderPage.xaml.cs:183-189 | after a committed order the page only clears quantities (when confirmed); the rows keep the ceilings taken from the stock at load time | one coffee with stock 5: order 5 (stock becomes 0), clear, press + five times and order again; the stock becomes -5 | the + clamp keeps every order within the stock, so the ceilings should be refreshed from the store after each commit | medium, not executed | SessionCoherence.ResubmitOverdrawsStock (with OrderComposer.Composer.Submit) | OrderComposer.Composer.SubmitAndReload (with SessionCoherence.CoherentCommitKeepsStock) |
